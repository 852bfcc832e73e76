/** The bulk lifecycle actions of blk_soft_utils/admin/base_admin.py. The
    records an admin manages are a table of rows; a selection (the queryset) is
    a set of row indices. Each action counts the selection, pushes one success
    message, sets one flag and `updated_at` on every selected row, and returns
    the selection. The rows carry `updated_at`, the name these actions write. */
module BaseAdmin {

  import opened Wrappers
  import Decimal

  datatype Row = Row(
    created_at: Option<int>,
    updated_at: Option<int>,
    is_active: bool,
    is_deleted: bool)

  /** The flag an action sets. */
  datatype Flag = IsActive | IsDeleted

  /** The levels of the admin's messaging channel, mirrored in full; the four actions emit `Success` only. */
  datatype Level = Debug | Info | Success | Warning | Error

  datatype Message = Message(level: Level, text: string)

  const DeletionSuffix: string := "marcados como eliminados"
  const RestorationSuffix: string := "desmarcados como eliminados"
  const ActivationSuffix: string := "activados"
  const DeactivationSuffix: string := "desactivados"

  function Get(r: Row, f: Flag): bool {
    match f
    case IsActive => r.is_active
    case IsDeleted => r.is_deleted
  }

  /** One row after `update(<f>=v, updated_at=now)`. */
  function Set(r: Row, f: Flag, v: bool, now: int): Row {
    match f
    case IsActive => r.(is_active := v, updated_at := Some(now))
    case IsDeleted => r.(is_deleted := v, updated_at := Some(now))
  }

  /** The table after `update(<f>=v, updated_at=now)` on the rows in `sel`. */
  function Updated(t: seq<Row>, sel: set<nat>, f: Flag, v: bool, now: int): (u: seq<Row>)
    ensures |u| == |t|
  {
    seq(|t|, i requires 0 <= i < |t| => if i in sel then Set(t[i], f, v, now) else t[i])
  }

  /** The success message, `f"{n} {model} han sido <suffix>."`. */
  function SuccessText(n: nat, model: string, suffix: string): (r: string)
    ensures var k := |Decimal.ToString(n)|;
      k < |r| && r[..k] == Decimal.ToString(n) && r[k] == ' '
    ensures |suffix| < |r| && r[|r| - |suffix| - 1..] == suffix + "."
    ensures '%' !in model && '%' !in suffix ==> '%' !in r
  {
    Decimal.ToString(n) + " " + model + " han sido " + suffix + "."
  }

  /** `%` applied to a string with a mapping on the right: without a `%` in the
      string there is nothing to substitute and the string comes back unchanged.
      Strings that do contain `%` are outside this model (`None`). */
  function PercentWithMapping(s: string): Option<string> {
    if '%' in s then None else Some(s)
  }

  predicate InRange(sel: set<nat>, len: nat) {
    forall i :: i in sel ==> i < len
  }

  class AdminMixin {
    /** The model's verbose name, as the messages show it. */
    const model: string
    /** The records the selections index into. */
    const rows: array<Row>
    /** The success messages shown so far, oldest first. */
    var messages: seq<Message>

    constructor (model: string, rows: array<Row>)
      ensures this.model == model && this.rows == rows && messages == []
    {
      this.model := model;
      this.rows := rows;
      messages := [];
    }

    /** `queryset.update(<f>=v, updated_at=now)`: every selected row, one by one. */
    method Update(queryset: set<nat>, f: Flag, v: bool, now: int)
      requires InRange(queryset, rows.Length)
      modifies rows
      ensures rows[..] == Updated(old(rows[..]), queryset, f, v, now)
    {
      var i := 0;
      while i < rows.Length
        invariant 0 <= i <= rows.Length
        invariant forall k :: 0 <= k < i ==>
          rows[k] == if k in queryset then Set(old(rows[k]), f, v, now) else old(rows[k])
        invariant forall k :: i <= k < rows.Length ==> rows[k] == old(rows[k])
      {
        if i in queryset {
          rows[i] := Set(rows[i], f, v, now);
        }
        i := i + 1;
      }
    }

    /** Marks the selected records as deleted. */
    method LogicalDeletion(queryset: set<nat>, now: int) returns (r: set<nat>)
      requires InRange(queryset, rows.Length)
      modifies this, rows
      ensures r == queryset
      ensures messages == old(messages) + [Message(Success, SuccessText(|queryset|, model, DeletionSuffix))]
      ensures rows[..] == Updated(old(rows[..]), queryset, IsDeleted, true, now)
    {
      var n := |queryset|;
      var message := SuccessText(n, model, DeletionSuffix);
      messages := messages + [Message(Success, message)];
      Update(queryset, IsDeleted, true, now);
      r := queryset;
    }

    /** Marks the selected records as not deleted. */
    method LogicalRestoration(queryset: set<nat>, now: int) returns (r: set<nat>)
      requires InRange(queryset, rows.Length)
      modifies this, rows
      ensures r == queryset
      ensures messages == old(messages) + [Message(Success, SuccessText(|queryset|, model, RestorationSuffix))]
      ensures rows[..] == Updated(old(rows[..]), queryset, IsDeleted, false, now)
    {
      var n := |queryset|;
      var message := SuccessText(n, model, RestorationSuffix);
      messages := messages + [Message(Success, message)];
      Update(queryset, IsDeleted, false, now);
      r := queryset;
    }

    /** Activates the selected records. */
    method Activation(queryset: set<nat>, now: int) returns (r: set<nat>)
      requires InRange(queryset, rows.Length)
      modifies this, rows
      ensures r == queryset
      ensures messages == old(messages) + [Message(Success, SuccessText(|queryset|, model, ActivationSuffix))]
      ensures rows[..] == Updated(old(rows[..]), queryset, IsActive, true, now)
    {
      var n := |queryset|;
      var message := SuccessText(n, model, ActivationSuffix);
      messages := messages + [Message(Success, message)];
      Update(queryset, IsActive, true, now);
      r := queryset;
    }

    /** Deactivates the selected records. */
    method Deactivation(queryset: set<nat>, now: int) returns (r: set<nat>)
      requires InRange(queryset, rows.Length)
      modifies this, rows
      ensures r == queryset
      ensures messages == old(messages) + [Message(Success, SuccessText(|queryset|, model, DeactivationSuffix))]
      ensures rows[..] == Updated(old(rows[..]), queryset, IsActive, false, now)
    {
      var n := |queryset|;
      var message := SuccessText(n, model, DeactivationSuffix);
      messages := messages + [Message(Success, message)];
      Update(queryset, IsActive, false, now);
      r := queryset;
    }
  }

  function Other(f: Flag): Flag {
    match f
    case IsActive => IsDeleted
    case IsDeleted => IsActive
  }

  /** What an update does to each row: a selected row gets the flag and the time,
      keeps the other flag and `created_at`; an unselected row is untouched. */
  lemma UpdateEffect(t: seq<Row>, sel: set<nat>, f: Flag, v: bool, now: int, i: nat)
    requires i < |t|
    ensures var u := Updated(t, sel, f, v, now);
      u[i].created_at == t[i].created_at &&
      Get(u[i], Other(f)) == Get(t[i], Other(f)) &&
      (i in sel ==> Get(u[i], f) == v && u[i].updated_at == Some(now)) &&
      (i !in sel ==> u[i] == t[i])
  {
  }

  /** A second update of the same flag on the same selection overrides the first:
      deletion then restoration leaves `is_deleted == false`, and repeating an
      action gives the same flags, only `updated_at` following the later time. */
  lemma UpdateOverrides(t: seq<Row>, sel: set<nat>, f: Flag, v1: bool, v2: bool, now1: int, now2: int)
    ensures Updated(Updated(t, sel, f, v1, now1), sel, f, v2, now2) == Updated(t, sel, f, v2, now2)
  {
  }

  /** An update leaves the other flag of every row alone: activation and
      deactivation never change `is_deleted`, deletion and restoration never change `is_active`. */
  lemma FlagsIndependent(t: seq<Row>, sel: set<nat>, f: Flag, v: bool, now: int)
    ensures forall i :: 0 <= i < |t| ==>
      Get(Updated(t, sel, f, v, now)[i], Other(f)) == Get(t[i], Other(f))
  {
  }

  /** No action ever changes `created_at`. */
  lemma CreationUntouched(t: seq<Row>, sel: set<nat>, f: Flag, v: bool, now: int)
    ensures forall i :: 0 <= i < |t| ==> Updated(t, sel, f, v, now)[i].created_at == t[i].created_at
  {
  }

  /** An empty selection changes nothing. */
  lemma EmptySelection(t: seq<Row>, f: Flag, v: bool, now: int)
    ensures Updated(t, {}, f, v, now) == t
  {
  }

  /** When the action's time is not before a selected row's creation, that row
      ends with `updated_at >= created_at`. */
  lemma UpdatedAfterCreated(t: seq<Row>, sel: set<nat>, f: Flag, v: bool, now: int, i: nat)
    requires i < |t| && i in sel
    requires t[i].created_at.Some? ==> t[i].created_at.value <= now
    ensures var u := Updated(t, sel, f, v, now)[i];
      u.updated_at.Some? && (u.created_at.Some? ==> u.created_at.value <= u.updated_at.value)
  {
  }

  /** The count the message reports reads back as the size of the selection,
      whatever the model's name; an empty selection reports "0". */
  lemma MessageReportsCount(n: nat, model: string, suffix: string)
    ensures Decimal.Value(Decimal.LeadingDigits(SuccessText(n, model, suffix))) == n
    ensures n == 0 ==> SuccessText(n, model, suffix)[..2] == "0 "
  {
    var rest := " " + model + " han sido " + suffix + ".";
    assert SuccessText(n, model, suffix) == Decimal.ToString(n) + rest;
    Decimal.LeadingDigitsOfNumber(n, rest);
  }

  /** The `% {...}` that follows the f-string is a no-op for a `%`-free model name:
      the count's digits and the fixed words hold no `%`. */
  lemma PercentNoOp(n: nat, model: string)
    requires '%' !in model
    ensures PercentWithMapping(SuccessText(n, model, DeletionSuffix)) == Some(SuccessText(n, model, DeletionSuffix))
    ensures PercentWithMapping(SuccessText(n, model, ActivationSuffix)) == Some(SuccessText(n, model, ActivationSuffix))
    ensures PercentWithMapping(SuccessText(n, model, DeactivationSuffix)) == Some(SuccessText(n, model, DeactivationSuffix))
  {
  }

  /** What a client can rely on: deletion then restoration of one selection
      leaves every selected record undeleted, with its activity and creation time
      unchanged, and adds the deletion and the restoration message, both
      reporting the selection's size. */
  method DeleteThenRestore(admin: AdminMixin, queryset: set<nat>, t1: int, t2: int)
    requires InRange(queryset, admin.rows.Length)
    modifies admin, admin.rows
    ensures forall i :: 0 <= i < admin.rows.Length && i in queryset ==>
      !admin.rows[i].is_deleted && admin.rows[i].is_active == old(admin.rows[i].is_active) &&
      admin.rows[i].updated_at == Some(t2) && admin.rows[i].created_at == old(admin.rows[i].created_at)
    ensures forall i :: 0 <= i < admin.rows.Length && i !in queryset ==> admin.rows[i] == old(admin.rows[i])
    ensures admin.messages == old(admin.messages) + [
      Message(Success, SuccessText(|queryset|, admin.model, DeletionSuffix)),
      Message(Success, SuccessText(|queryset|, admin.model, RestorationSuffix))]
  {
    ghost var before := admin.rows[..];
    var s := admin.LogicalDeletion(queryset, t1);
    s := admin.LogicalRestoration(s, t2);
    UpdateOverrides(before, queryset, IsDeleted, true, false, t1, t2);
    forall i | 0 <= i < admin.rows.Length
      ensures admin.rows[i] == Updated(before, queryset, IsDeleted, false, t2)[i]
    {
      assert admin.rows[i] == admin.rows[..][i];
    }
  }
}
