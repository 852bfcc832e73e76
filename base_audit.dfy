/** The lifecycle-flags record of tools/models/base_audit.py: two timestamps,
    both nullable, and the `is_active` / `is_deleted` flags with their defaults.
    Note that this record names its modification timestamp `update_at`. */
module BaseAudit {

  import opened Wrappers

  datatype AuditBase = AuditBase(
    created_at: Option<int>,  // auto_now_add: written on the first save only
    update_at: Option<int>,   // auto_now: written on every save
    is_active: bool,          // default True
    is_deleted: bool)         // default False

  /** A freshly constructed, not yet saved instance: field defaults, no timestamps. */
  function New(): (r: AuditBase)
    ensures r.is_active && !r.is_deleted
    ensures r.created_at == None && r.update_at == None
  {
    AuditBase(None, None, true, false)
  }

  /** First save (an INSERT): both automatic timestamps take the save time. */
  function Insert(r: AuditBase, now: int): (s: AuditBase)
    ensures s.created_at == Some(now) && s.update_at == Some(now)
    ensures Ordered(s) && NotAfter(s, now)
    ensures s.is_active == r.is_active && s.is_deleted == r.is_deleted
  {
    r.(created_at := Some(now), update_at := Some(now))
  }

  /** Any later save (an UPDATE): only the `auto_now` field moves. */
  function Update(r: AuditBase, now: int): (s: AuditBase)
    ensures s.created_at == r.created_at && s.update_at == Some(now)
    ensures NotAfter(r, now) ==> Ordered(s) && NotAfter(s, now)
    ensures s.is_active == r.is_active && s.is_deleted == r.is_deleted
  {
    r.(update_at := Some(now))
  }

  /** The ordering a record keeps once both timestamps are set. */
  predicate Ordered(r: AuditBase) {
    r.created_at.Some? && r.update_at.Some? ==> r.created_at.value <= r.update_at.value
  }

  /** No timestamp of `r` lies after `now` (the clock does not run backwards). */
  predicate NotAfter(r: AuditBase, now: int) {
    (r.created_at.Some? ==> r.created_at.value <= now) &&
    (r.update_at.Some? ==> r.update_at.value <= now)
  }

  predicate NonDecreasing(times: seq<int>) {
    forall i, j :: 0 <= i < j < |times| ==> times[i] <= times[j]
  }

  /** The record after its first save at `times[0]` and one further save at each later time. */
  function Saved(r: AuditBase, times: seq<int>): AuditBase
    requires times != []
    decreases |times|
  {
    if |times| == 1 then Insert(r, times[0])
    else Update(Saved(r, times[..|times| - 1]), times[|times| - 1])
  }

  /** Both timestamps may be null: an unsaved record has neither, and updating a
      record stored without `created_at` leaves it null. */
  lemma TimestampsMayBeNull(r: AuditBase, now: int)
    requires r.created_at == None
    ensures Update(r, now).created_at == None && Ordered(Update(r, now))
  {
  }

  /** Over a whole history of saves at non-decreasing times: `created_at` is the
      first save time, `update_at` the last, and `update_at >= created_at`. */
  lemma {:induction false} SavedHistory(r: AuditBase, times: seq<int>)
    requires times != [] && NonDecreasing(times)
    ensures Saved(r, times).created_at == Some(times[0])
    ensures Saved(r, times).update_at == Some(times[|times| - 1])
    ensures Ordered(Saved(r, times))
    ensures Saved(r, times).is_active == r.is_active && Saved(r, times).is_deleted == r.is_deleted
    decreases |times|
  {
    if |times| > 1 {
      var prefix := times[..|times| - 1];
      assert NonDecreasing(prefix);
      SavedHistory(r, prefix);
      assert prefix[0] == times[0];
      assert times[0] <= times[|times| - 1];
    }
  }
}
