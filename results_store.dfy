/** The results store: one key-value map holding task records under
    `code_review:task:<id>` and cached analyses under
    `code_review:fingerprint:<fp>`. Values are kept as the payloads
    themselves (serialisation is taken to round-trip), and keys never expire. */
module Storage {
  import opened Wrappers

  const TaskPrefix := "code_review:task:"
  const FingerprintPrefix := "code_review:fingerprint:"

  /** `_key(task_id)`. */
  function TaskKey(taskId: string): string {
    TaskPrefix + taskId
  }

  function FingerprintKey(fingerprint: string): string {
    FingerprintPrefix + fingerprint
  }

  /** A read: the stored value, or `None` for a key never written. */
  function Lookup<V>(kv: map<string, V>, key: string): Option<V> {
    if key in kv then Some(kv[key]) else None
  }

  /** What `get(task_id)` returns from `kv`. */
  function TaskRecord<V>(kv: map<string, V>, taskId: string): Option<V> {
    Lookup(kv, TaskKey(taskId))
  }

  /** What `get_by_fingerprint(fp)` returns from `kv`. */
  function CachedRecord<V>(kv: map<string, V>, fingerprint: string): Option<V> {
    Lookup(kv, FingerprintKey(fingerprint))
  }

  /** Distinct task ids have distinct keys. */
  lemma TaskKeyInjective(a: string, b: string)
    requires TaskKey(a) == TaskKey(b)
    ensures a == b
  {
    assert a == TaskKey(a)[|TaskPrefix|..];
    assert b == TaskKey(b)[|TaskPrefix|..];
  }

  /** Distinct fingerprints have distinct keys. */
  lemma FingerprintKeyInjective(a: string, b: string)
    requires FingerprintKey(a) == FingerprintKey(b)
    ensures a == b
  {
    assert a == FingerprintKey(a)[|FingerprintPrefix|..];
    assert b == FingerprintKey(b)[|FingerprintPrefix|..];
  }

  /** No task key is a fingerprint key: the prefixes part at their
      thirteenth character. */
  lemma NamespacesDisjoint(taskId: string, fingerprint: string)
    ensures TaskKey(taskId) != FingerprintKey(fingerprint)
  {
    assert TaskKey(taskId)[12] == 't';
    assert FingerprintKey(fingerprint)[12] == 'f';
  }

  /** `get(t)` after `save(t, p)` returns `p`; every other task id and
      every fingerprint reads as before. */
  lemma SaveThenGet<V>(kv: map<string, V>, taskId: string, payload: V)
    ensures TaskRecord(kv[TaskKey(taskId) := payload], taskId) == Some(payload)
    ensures forall other :: other != taskId ==>
      TaskRecord(kv[TaskKey(taskId) := payload], other) == TaskRecord(kv, other)
    ensures forall fp :: CachedRecord(kv[TaskKey(taskId) := payload], fp) == CachedRecord(kv, fp)
  {
    forall other | other != taskId
      ensures TaskRecord(kv[TaskKey(taskId) := payload], other) == TaskRecord(kv, other)
    {
      if TaskKey(other) == TaskKey(taskId) {
        TaskKeyInjective(other, taskId);
      }
    }
    forall fp ensures CachedRecord(kv[TaskKey(taskId) := payload], fp) == CachedRecord(kv, fp) {
      NamespacesDisjoint(taskId, fp);
    }
  }

  /** `get_by_fingerprint(f)` after `cache_by_fingerprint(f, p)` returns
      `p`; every other fingerprint and every task id reads as before. */
  lemma CacheThenGet<V>(kv: map<string, V>, fingerprint: string, payload: V)
    ensures CachedRecord(kv[FingerprintKey(fingerprint) := payload], fingerprint) == Some(payload)
    ensures forall other :: other != fingerprint ==>
      CachedRecord(kv[FingerprintKey(fingerprint) := payload], other) == CachedRecord(kv, other)
    ensures forall t :: TaskRecord(kv[FingerprintKey(fingerprint) := payload], t) == TaskRecord(kv, t)
  {
    forall other | other != fingerprint
      ensures CachedRecord(kv[FingerprintKey(fingerprint) := payload], other) == CachedRecord(kv, other)
    {
      if FingerprintKey(other) == FingerprintKey(fingerprint) {
        FingerprintKeyInjective(other, fingerprint);
      }
    }
    forall t ensures TaskRecord(kv[FingerprintKey(fingerprint) := payload], t) == TaskRecord(kv, t) {
      NamespacesDisjoint(t, fingerprint);
    }
  }

  /** Saving twice under one id keeps the last payload: `get` returns the
      second, and every other task id and every fingerprint reads as
      before both saves. */
  lemma LastWriteWins<V>(kv: map<string, V>, taskId: string, first: V, second: V)
    ensures TaskRecord(kv[TaskKey(taskId) := first][TaskKey(taskId) := second], taskId) == Some(second)
    ensures forall t :: t != taskId ==>
      TaskRecord(kv[TaskKey(taskId) := first][TaskKey(taskId) := second], t) == TaskRecord(kv, t)
    ensures forall fp :: CachedRecord(kv[TaskKey(taskId) := first][TaskKey(taskId) := second], fp)
                         == CachedRecord(kv, fp)
  {
    assert kv[TaskKey(taskId) := first][TaskKey(taskId) := second] == kv[TaskKey(taskId) := second];
    SaveThenGet(kv, taskId, second);
  }

  /** The empty store holds nothing under either namespace. */
  lemma EmptyStoreHoldsNothing<V>(kv: map<string, V>, taskId: string, fingerprint: string)
    requires kv == map[]
    ensures TaskRecord(kv, taskId) == None
    ensures CachedRecord(kv, fingerprint) == None
  {
  }

  /** `ResultsStore`: one map, written and read through the two prefixed
      namespaces. */
  class ResultsStore<V> {
    var kv: map<string, V>

    constructor ()
      ensures kv == map[]
    {
      kv := map[];
    }

    /** `save(task_id, payload)`. */
    method Save(taskId: string, payload: V)
      modifies this
      ensures kv == old(kv)[TaskKey(taskId) := payload]
    {
      kv := kv[TaskKey(taskId) := payload];
    }

    /** `get(task_id)`. */
    method Get(taskId: string) returns (r: Option<V>)
      ensures r == TaskRecord(kv, taskId)
    {
      var key := TaskKey(taskId);
      if key in kv {
        r := Some(kv[key]);
      } else {
        r := None;
      }
    }

    /** `cache_by_fingerprint(fingerprint, payload)`. */
    method CacheByFingerprint(fingerprint: string, payload: V)
      modifies this
      ensures kv == old(kv)[FingerprintKey(fingerprint) := payload]
    {
      kv := kv[FingerprintKey(fingerprint) := payload];
    }

    /** `get_by_fingerprint(fingerprint)`. */
    method GetByFingerprint(fingerprint: string) returns (r: Option<V>)
      ensures r == CachedRecord(kv, fingerprint)
    {
      var key := FingerprintKey(fingerprint);
      if key in kv {
        r := Some(kv[key]);
      } else {
        r := None;
      }
    }
  }
}
