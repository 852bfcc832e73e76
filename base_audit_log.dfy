/** The audit-log record of blk_soft_utils/models/base_audit_log.py: its action
    codes, the constraints its field declarations put on a stored entry, and the
    three classification predicates. */
module BaseAuditLog {

  import opened Wrappers

  const ADDITION: int := 1
  const CHANGE: int := 2
  const DELETION: int := 3

  /** The values `action_flag` may take (its `choices`). */
  const ActionFlagChoices: set<int> := {ADDITION, CHANGE, DELETION}

  const ObjectReprMaxLength: nat := 200

  /** The JSON payload of `change_message`, kept opaque. */
  datatype ChangeMessage = ChangeMessage(json: string)

  /** The fields a caller supplies; `action_time` is not among them. */
  datatype Draft = Draft(
    object_id: Option<string>,
    object_repr: string,
    action_flag: int,
    user_id: Option<int>,
    organization_id: Option<int>,
    change_message: Option<ChangeMessage>,
    component_type: int)

  datatype AuditLogBase = AuditLogBase(action_time: int, fields: Draft)
  {
    predicate IsAddition()
      ensures IsAddition() ==> fields.action_flag in ActionFlagChoices
    {
      fields.action_flag == ADDITION
    }

    predicate IsChange()
      ensures IsChange() ==> !IsAddition() && fields.action_flag in ActionFlagChoices
    {
      fields.action_flag == CHANGE
    }

    predicate IsDeletion()
      ensures IsDeletion() ==> !IsAddition() && !IsChange() && fields.action_flag in ActionFlagChoices
    {
      fields.action_flag == DELETION
    }
  }

  /** The fields whose declared constraints a draft violates. */
  datatype Field = ObjectRepr | ActionFlag | ComponentType

  function FieldErrors(d: Draft): set<Field> {
    (if d.object_repr == "" || |d.object_repr| > ObjectReprMaxLength then {ObjectRepr} else {}) +
    (if d.action_flag !in ActionFlagChoices then {ActionFlag} else {}) +
    (if d.component_type < 1 then {ComponentType} else {})
  }

  /** What the field declarations accept: a non-blank `object_repr` of at most
      200 characters, an `action_flag` among the choices, `component_type >= 1`.
      The four nullable fields carry no constraint in this model (the storage
      range of the integer columns is not modelled). */
  predicate Valid(e: AuditLogBase)
    ensures Valid(e) ==> e.IsAddition() || e.IsChange() || e.IsDeletion()
  {
    var d := e.fields;
    0 < |d.object_repr| <= ObjectReprMaxLength &&
    d.action_flag in ActionFlagChoices &&
    d.component_type >= 1
  }

  /** Creating an entry stamps it with the creation time (`auto_now_add`). */
  function Create(d: Draft, now: int): (e: AuditLogBase)
    ensures e.action_time == now
    ensures Valid(e) <==> FieldErrors(d) == {}
  {
    AuditLogBase(now, d)
  }

  /** Editing replaces the editable fields; `action_time` (`editable=False`) is kept. */
  function Edit(e: AuditLogBase, d: Draft): (r: AuditLogBase)
    ensures r.action_time == e.action_time
    ensures Valid(r) <==> FieldErrors(d) == {}
  {
    e.(fields := d)
  }

  /** An entry is valid exactly when validation reports no field, and each field
      is reported exactly when its own constraint fails. */
  lemma ValidIffNoErrors(e: AuditLogBase)
    ensures Valid(e) <==> FieldErrors(e.fields) == {}
    ensures ComponentType in FieldErrors(e.fields) <==> e.fields.component_type < 1
    ensures ObjectRepr in FieldErrors(e.fields) <==> !(0 < |e.fields.object_repr| <= 200)
    ensures ActionFlag in FieldErrors(e.fields) <==> e.fields.action_flag !in {1, 2, 3}
  {
  }

  /** Each predicate holds exactly for its own action code. */
  lemma PredicatesMatchCodes(e: AuditLogBase)
    ensures e.IsAddition() <==> e.fields.action_flag == 1
    ensures e.IsChange() <==> e.fields.action_flag == 2
    ensures e.IsDeletion() <==> e.fields.action_flag == 3
  {
  }

  /** For a flag among the choices exactly one predicate holds; for any other value none does. */
  lemma ExactlyOneKind(e: AuditLogBase)
    ensures e.fields.action_flag in ActionFlagChoices ==>
      (e.IsAddition() && !e.IsChange() && !e.IsDeletion()) ||
      (!e.IsAddition() && e.IsChange() && !e.IsDeletion()) ||
      (!e.IsAddition() && !e.IsChange() && e.IsDeletion())
    ensures e.fields.action_flag !in ActionFlagChoices ==>
      !e.IsAddition() && !e.IsChange() && !e.IsDeletion()
  {
  }

  /** The nullable fields may all be absent without making an entry invalid. */
  lemma OptionalFieldsMayBeNull(e: AuditLogBase)
    requires Valid(e)
    ensures Valid(e.(fields := e.fields.(object_id := None, user_id := None,
                                        organization_id := None, change_message := None)))
  {
  }

  /** `action_time` is fixed at creation: no sequence of edits moves it, and the
      validity of an entry depends on its fields only. */
  lemma {:induction false} EditsKeepActionTime(d: Draft, now: int, edits: seq<Draft>)
    ensures EditAll(Create(d, now), edits).action_time == now
    ensures Valid(EditAll(Create(d, now), edits)) <==> FieldErrors(if edits == [] then d else edits[|edits| - 1]) == {}
    decreases |edits|
  {
    if edits != [] {
      EditsKeepActionTime(d, now, edits[..|edits| - 1]);
    }
    ValidIffNoErrors(EditAll(Create(d, now), edits));
  }

  /** `e` after each draft of `edits` in turn. */
  function EditAll(e: AuditLogBase, edits: seq<Draft>): AuditLogBase
    decreases |edits|
  {
    if edits == [] then e else Edit(EditAll(e, edits[..|edits| - 1]), edits[|edits| - 1])
  }
}
