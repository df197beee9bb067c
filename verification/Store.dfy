/**
  The key-value store of db/mdbx.go. MDBX itself is taken as a map with atomic, serialised update
  transactions; `Replay` is the sequential specification, one `Set` per write.
 */
module Store {
  import opened Bytes

  type Kv = map<Key, Value>

  datatype Req = Req(key: Key, value: Value)

  function Lookup(m: Kv, k: Key): Option<Value> {
    if k in m then Some(m[k]) else None
  }

  /** The store after one `Db.Set` per write, in order. */
  function Replay(m: Kv, reqs: seq<Req>): Kv {
    if reqs == [] then m
    else var last := reqs[|reqs| - 1];
      Replay(m, reqs[..|reqs| - 1])[last.key := last.value]
  }

  /** The writes to one key, in order. */
  function ByKey(reqs: seq<Req>, k: Key): (r: seq<Req>) {
    if reqs == [] then []
    else var last := reqs[|reqs| - 1];
      ByKey(reqs[..|reqs| - 1], k) + if last.key == k then [last] else []
  }

  lemma ReplaySnoc(m: Kv, reqs: seq<Req>, r: Req)
    ensures Replay(m, reqs + [r]) == Replay(m, reqs)[r.key := r.value]
  {
    assert (reqs + [r])[..|reqs|] == reqs;
  }

  lemma {:induction false} ReplayAppend(m: Kv, a: seq<Req>, b: seq<Req>)
    ensures Replay(m, a + b) == Replay(Replay(m, a), b)
  {
    if b == [] {
      assert a + b == a;
    } else {
      var n := |b| - 1;
      assert a + b == (a + b[..n]) + [b[n]];
      ReplaySnoc(m, a + b[..n], b[n]);
      ReplayAppend(m, a, b[..n]);
    }
  }

  /** Buffering writes in an empty map and then overlaying it is the same as setting each in turn. */
  lemma {:induction false} ReplayIsOverlay(m: Kv, reqs: seq<Req>)
    ensures Replay(m, reqs) == m + Replay(map[], reqs)
  {
    if reqs != [] {
      ReplayIsOverlay(m, reqs[..|reqs| - 1]);
    }
  }

  /** A write not addressed to a key does not affect it. */
  lemma {:induction false} ReplayByKey(m: Kv, reqs: seq<Req>, k: Key)
    ensures Lookup(Replay(m, reqs), k) == Lookup(Replay(m, ByKey(reqs, k)), k)
  {
    if reqs != [] {
      var n := |reqs| - 1;
      ReplayByKey(m, reqs[..n], k);
      if reqs[n].key == k {
        ReplaySnoc(m, ByKey(reqs[..n], k), reqs[n]);
      } else {
        assert ByKey(reqs, k) == ByKey(reqs[..n], k);
      }
    }
  }

  lemma LookupExtensionality(a: Kv, b: Kv)
    requires forall k :: Lookup(a, k) == Lookup(b, k)
    ensures a == b
  {
    forall k: Key
      ensures k in a <==> k in b
      ensures k in a ==> a[k] == b[k]
    {
      assert Lookup(a, k) == Lookup(b, k);
    }
  }

  /** A key that gets written holds the value of the last write to it. */
  lemma {:induction false} ReplayLastWrite(m: Kv, reqs: seq<Req>, p: nat)
    requires p < |reqs|
    requires forall q | p < q < |reqs| :: reqs[q].key != reqs[p].key
    ensures Lookup(Replay(m, reqs), reqs[p].key) == Some(reqs[p].value)
  {
    var n := |reqs| - 1;
    if p < n {
      ReplayLastWrite(m, reqs[..n], p);
    }
  }

  lemma {:induction false} ReplayUntouched(m: Kv, reqs: seq<Req>, k: Key)
    requires forall q | 0 <= q < |reqs| :: reqs[q].key != k
    ensures Lookup(Replay(m, reqs), k) == Lookup(m, k)
  {
    if reqs != [] {
      ReplayUntouched(m, reqs[..|reqs| - 1], k);
    }
  }

  lemma {:induction false} ReplaySize(reqs: seq<Req>)
    ensures |Replay(map[], reqs)| <= |reqs|
    ensures Replay(map[], reqs) == map[] <==> reqs == []
  {
    if reqs != [] {
      var n := |reqs| - 1;
      var before := Replay(map[], reqs[..n]);
      var after := before[reqs[n].key := reqs[n].value];
      ReplaySize(reqs[..n]);
      assert after.Keys == before.Keys + {reqs[n].key};
      assert |after| == |after.Keys| && |before| == |before.Keys|;
      assert reqs[n].key in after;
    }
  }

  /** Every key of the replayed buffer was written. */
  lemma {:induction false} ReplayedKeyIsWritten(reqs: seq<Req>, k: Key)
    ensures k in Replay(map[], reqs) <==> exists q :: 0 <= q < |reqs| && reqs[q].key == k
  {
    if reqs != [] {
      var n := |reqs| - 1;
      ReplayedKeyIsWritten(reqs[..n], k);
      if k in Replay(map[], reqs[..n]) {
        var q :| 0 <= q < n && reqs[..n][q].key == k;
        assert reqs[q].key == k;
      } else {
        assert forall q | 0 <= q < n :: reqs[..n][q].key == reqs[q].key;
      }
    }
  }

  datatype Fetched = Fetched(value: Value) | NotFound | ViewFailed

  /** `Db`: the environment handle, reduced to the committed contents a `View` sees. */
  class Db {
    var store: Kv

    constructor (initial: Kv)
      ensures store == initial
    {
      store := initial;
    }

    /** One update transaction with one put; a transaction that fails leaves the store alone. */
    method Set(key: Key, value: Value, txnOk: bool) returns (ok: bool)
      modifies this
      ensures ok == txnOk
      ensures store == if ok then Replay(old(store), [Req(key, value)]) else old(store)
    {
      if txnOk {
        ReplaySnoc(store, [], Req(key, value));
        assert [] + [Req(key, value)] == [Req(key, value)];
        store := store[key := value];
      }
      ok := txnOk;
    }

    /** The value, or one of the two kinds of error: not found, or the view transaction itself fails. */
    method Get(key: Key, viewOk: bool) returns (r: Fetched)
      ensures r == if !viewOk then ViewFailed else if key in store then Fetched(store[key]) else NotFound
    {
      r := if !viewOk then ViewFailed else if key in store then Fetched(store[key]) else NotFound;
    }

    /** Not found is no error here; a failed view still is, and then nothing is found. */
    method Exists(key: Key, viewOk: bool) returns (found: bool, failed: bool)
      ensures failed <==> !viewOk
      ensures found <==> viewOk && Lookup(store, key).Some?
    {
      var r := Get(key, viewOk);
      found, failed := r.Fetched?, r.ViewFailed?;
    }
  }
}
