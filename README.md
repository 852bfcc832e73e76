# django_utils: a verified model of the lifecycle actions, audit records and requirements filter

This project models the parts of the `django_utils` package that have behaviour:

- **Bulk lifecycle actions** (`AdminMixin`, `blk_soft_utils/admin/base_admin.py`), module
  `BaseAdmin`. The records an admin manages are an `array<Row>`. A selection (the queryset)
  is a set of row indices. Each of the four actions (`LogicalDeletion`, `LogicalRestoration`,
  `Activation`, `Deactivation`) does four things. It counts the selection. It appends one
  `Success` message `"{n} {model} han sido <suffix>."` to the message log. It sets its flag and
  `updated_at := now` on every selected row, in a loop that is the model of `queryset.update`.
  It returns the selection it received. Each method's contract ties the new table to the
  specification function `Updated`. The lemmas about `Updated` give the properties:
  round-trips, idempotence on flags, independence of the two flags, `created_at` untouched,
  and the empty selection.
- **Audit-log record** (`AuditLogBase`, `blk_soft_utils/models/base_audit_log.py`), module
  `BaseAuditLog`. It defines the action codes `ADDITION = 1`, `CHANGE = 2` and `DELETION = 3`.
  `Valid` is the validity that the field declarations impose. `FieldErrors` lists the fields
  that fail validation. The datatype has the three classification predicates, and
  `action_time` is fixed at creation.
- **Lifecycle-flags record** (`AuditBase`, `tools/models/base_audit.py`), module `BaseAudit`.
  It gives the defaults (`is_active = true`, `is_deleted = false`) and both nullable
  timestamps. `Insert` and `Update` are the timestamp rules of a first save and of every
  later save.
- **Requirements filter** (`get_requirements`, `setup.py`), module `Setup`. It is a function
  over the file's lines. Each line goes through Python's `str.strip`. Lines that are blank,
  start with `#` or start with `--hash` are dropped. On every kept line, one left-to-right
  `str.replace(" \\", "")` pass runs.

Three definitions that carry no contract of their own model source behaviour and
are covered by the rows that use them: `Setup.IsSpace` is the character set `str.strip`
removes (setup.py:25, rows `Setup.StripLeft`, `Setup.StripRight`, `Setup.Strip`);
`Setup.Kept` is the comprehension's condition (setup.py:29, rows `Setup.OneLine`,
`Setup.DroppedLine`); `BaseAdmin.PercentWithMapping` is `str % mapping`
(blk_soft_utils/admin/base_admin.py:61-64, row `BaseAdmin.PercentNoOp`).

Module `Decimal` renders the count in the message as an f-string renders an `int`, and reads
it back. Module `Wrappers` holds `Option`, used for nullable columns.

The two record files disagree about the name of the modification timestamp.
`tools/models/base_audit.py:37` declares `update_at`. The admin actions write `updated_at`
(`blk_soft_utils/admin/base_admin.py:66`, `:92`, `:121`, `:149`). Each file is modelled as
written. `BaseAudit.AuditBase` has `update_at`. `BaseAdmin.Row`, the shape the actions assume,
has `updated_at`. The model does not reconcile the two names.

## Model

| member | source | states |
|---|---|---|
| BaseAdmin.AdminMixin.Update | blk_soft_utils/admin/base_admin.py:66 | the batch update: every selected row gets the flag value and `updated_at == now`; every other row is unchanged (the table equals `Updated` of the old table) |
| BaseAdmin.Updated | blk_soft_utils/admin/base_admin.py:66 | the effect of the batch update on a table; it keeps the table's length, and UpdateEffect gives what it does to each row |
| BaseAdmin.SuccessText | blk_soft_utils/admin/base_admin.py:61 | the f-strings at :61, :90, :116 and :144: the text starts with the count's digits and a space and ends with the suffix and a full stop; without `%` in the model name and the suffix it has no `%` |
| BaseAdmin.AdminMixin.LogicalDeletion | blk_soft_utils/admin/base_admin.py:59-67 | returns the selection it was given; appends exactly one Success message "{n} {model} han sido marcados como eliminados." with n the selection's size; the table becomes the old table with `is_deleted = true, updated_at = now` on the selection |
| BaseAdmin.AdminMixin.LogicalRestoration | blk_soft_utils/admin/base_admin.py:88-93 | same shape, with "desmarcados como eliminados" and `is_deleted = false` |
| BaseAdmin.AdminMixin.Activation | blk_soft_utils/admin/base_admin.py:114-122 | same shape, with "activados" and `is_active = true` |
| BaseAdmin.AdminMixin.Deactivation | blk_soft_utils/admin/base_admin.py:143-150 | same shape, with "desactivados" and `is_active = false` |
| BaseAdmin.UpdateEffect | blk_soft_utils/admin/base_admin.py:66 | a selected row has the new flag value and `updated_at == now`, and keeps the other flag and `created_at`; an unselected row is unchanged |
| BaseAdmin.UpdateOverrides | blk_soft_utils/admin/base_admin.py:92 | a second update of the same flag on the same selection overrides the first: deletion then restoration gives `is_deleted == false` whatever came before, and repeating an action gives the same flags, with `updated_at` from the later call |
| BaseAdmin.FlagsIndependent | blk_soft_utils/admin/base_admin.py:121 | activation and deactivation never change `is_deleted`; deletion and restoration never change `is_active` |
| BaseAdmin.CreationUntouched | blk_soft_utils/admin/base_admin.py:149 | no action changes `created_at` of any row |
| BaseAdmin.EmptySelection | blk_soft_utils/admin/base_admin.py:60 | an empty selection leaves the table unchanged |
| BaseAdmin.UpdatedAfterCreated | blk_soft_utils/admin/base_admin.py:66 | if the action time is not before a selected row's creation, that row ends with `updated_at >= created_at` |
| BaseAdmin.MessageReportsCount | blk_soft_utils/admin/base_admin.py:60-61 | the number at the head of the message reads back as the count it was built from; an empty selection's message starts with "0 " |
| BaseAdmin.PercentNoOp | blk_soft_utils/admin/base_admin.py:61-64 | for a model name without `%`, the trailing `% {...}` returns the f-string unchanged (deletion, activation, deactivation) |
| BaseAdmin.DeleteThenRestore | blk_soft_utils/admin/base_admin.py:41-93 | deleting and then restoring the same selection leaves each selected row undeleted, with its `is_active` and `created_at` unchanged and `updated_at` from the restoration; other rows are untouched; the log gains exactly the deletion message and then the restoration message, both with the selection's size |
| Decimal.ToString | blk_soft_utils/admin/base_admin.py:61 | the rendered count is non-empty, all decimal digits, with no leading zero |
| Decimal.ValueOfToString | blk_soft_utils/admin/base_admin.py:61 | rendering a count and reading it back gives the count |
| Decimal.ToStringInjective | blk_soft_utils/admin/base_admin.py:61 | different counts render differently |
| Decimal.LeadingDigitsOfNumber | blk_soft_utils/admin/base_admin.py:61 | a rendered count followed by a non-digit is exactly the leading digits of the text, and reads back as the count |
| Decimal.LeadingDigits | blk_soft_utils/admin/base_admin.py:61 | the result is the longest all-digit prefix of the text |
| BaseAuditLog.ValidIffNoErrors | blk_soft_utils/models/base_audit_log.py:67-82 | an entry is valid iff validation reports no field; `object_repr` is reported iff it is blank or over 200 characters; `action_flag` iff it is not 1, 2 or 3; `component_type` iff it is below 1 |
| BaseAuditLog.Valid | blk_soft_utils/models/base_audit_log.py:67-82 | the field constraints of a stored entry; a valid entry is an addition, a change or a deletion |
| BaseAuditLog.AuditLogBase.IsAddition | blk_soft_utils/models/base_audit_log.py:90-91 | holds only for a flag among the choices |
| BaseAuditLog.AuditLogBase.IsChange | blk_soft_utils/models/base_audit_log.py:93-94 | holds only for a flag among the choices, and never together with `IsAddition` |
| BaseAuditLog.AuditLogBase.IsDeletion | blk_soft_utils/models/base_audit_log.py:96-97 | holds only for a flag among the choices, and never together with `IsAddition` or `IsChange` |
| BaseAuditLog.Create | blk_soft_utils/models/base_audit_log.py:62-66 | a new entry has `action_time == now` (`auto_now_add`) and is valid iff its fields pass validation |
| BaseAuditLog.Edit | blk_soft_utils/models/base_audit_log.py:62-66 | an edit keeps `action_time` (`editable=False`) and the result is valid iff the new fields pass validation |
| BaseAuditLog.PredicatesMatchCodes | blk_soft_utils/models/base_audit_log.py:90-97 | `IsAddition` holds iff the flag is 1, `IsChange` iff 2, `IsDeletion` iff 3 |
| BaseAuditLog.ExactlyOneKind | blk_soft_utils/models/base_audit_log.py:69-97 | for a flag among the choices exactly one predicate holds; for any other flag none does |
| BaseAuditLog.OptionalFieldsMayBeNull | blk_soft_utils/models/base_audit_log.py:67-77 | a valid entry stays valid with `object_id`, `user_id`, `organization_id` and `change_message` all null |
| BaseAuditLog.EditsKeepActionTime | blk_soft_utils/models/base_audit_log.py:62-66 | after creation at `now` and any sequence of edits, `action_time == now`, and validity depends only on the latest fields |
| BaseAudit.New | tools/models/base_audit.py:34-44 | an unsaved record is active, not deleted, and has both timestamps null |
| BaseAudit.Insert | tools/models/base_audit.py:34-39 | a first save stamps `created_at` and `update_at` with the save time, so the record is ordered; the flags are kept |
| BaseAudit.Update | tools/models/base_audit.py:34-39 | a later save keeps `created_at`, sets `update_at` to the save time, keeps the ordering when the clock is monotone, and keeps the flags |
| BaseAudit.TimestampsMayBeNull | tools/models/base_audit.py:35-38 | a stored record without `created_at` keeps it null through a later save (`Update`); an unsaved record has both timestamps null (`New`) |
| BaseAudit.SavedHistory | tools/models/base_audit.py:34-39 | after saves at non-decreasing times, `created_at` is the first save time, `update_at` the last, `update_at >= created_at`, and the flags are unchanged |
| Setup.StripLeft | setup.py:25 | the result is a suffix of the input; everything removed is whitespace; it does not start with whitespace |
| Setup.StripRight | setup.py:25 | the result is a prefix of the input; everything removed is whitespace; it does not end with whitespace |
| Setup.Strip | setup.py:25 | the result is a slice of the line with only whitespace outside it; it is empty iff the line is all whitespace, and otherwise starts and ends with non-whitespace |
| Setup.RemoveSpaceBackslash | setup.py:27 | never longer than its input; keeps the first character when that is not a space |
| Setup.RemovalConcat | setup.py:27 | the replacement of a concatenation is the concatenation of the replacements when the cut does not split a " \" |
| Setup.RemovalPieces | setup.py:27 | " \" itself becomes empty and every single character stays; with RemovalConcat this fixes which characters are kept |
| Setup.RemovedLength | setup.py:27 | the length drops by exactly two per non-overlapping occurrence of " \" (as `str.count` counts them) |
| Setup.UnchangedIffNoPattern | setup.py:27 | the replacement leaves a line unchanged iff the line contains no " \" |
| Setup.RemovalCanLeavePattern | setup.py:27 | one pass can leave a new " \" behind (`a␣␣\\` becomes `a␣\`), so the replacement is not idempotent |
| Setup.GetRequirements | setup.py:23-30 | at most one output per input line; every output is non-empty and starts with neither whitespace nor `#` |
| Setup.OneLine | setup.py:25-30 | a single line yields its stripped, cleaned text if it is kept, nothing otherwise |
| Setup.ConcatenationDistributes | setup.py:26-30 | the filter of a concatenation is the concatenation of the filters, so output order follows input order |
| Setup.DroppedLine | setup.py:29 | a line that is blank, a comment or a `--hash` line after stripping contributes nothing |

## Left out

- Django machinery: admin registration, the `@admin.display` labels, `date_hierarchy`, queryset laziness, and the database's atomicity and isolation of the batch update. These are framework behaviour outside this package.
- `message_user` is modelled as appending to the admin's message log. The `request` it is sent through is not modelled.
- `timezone.now()` is the `now` parameter. A first save of `AuditBase` reads the clock once per automatic field; the model uses one `now` for both.
- A failing batch update is not modelled. The source has no error path of its own: the message has already been pushed, and the exception propagates.
- The `%` operation on a message whose model name itself contains `%` is not modelled. `BaseAdmin.PercentWithMapping` returns `None` there.
- `AuditLogBase.__repr__` (`base_audit_log.py:87-88`) is a Django datetime-to-string helper.
- Storage details: `db_index`, `verbose_name`, translation, and the JSON content of `change_message` (kept as opaque text).
- The storage range of the integer columns is not part of `Valid`: `component_type` (a small integer) has only its declared `>= 1` validator, and `user_id` and `organization_id` have no constraint.
- The `ACTION_FLAG_CHOICES` labels: only the three values are modelled.
- In `setup.py`: reading `README.md`, `read_from`, `get_path`, `splitlines` (the lines are the input), and the `setuptools.setup` call.
