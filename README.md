# Prompt store and correction loop, modelled in Dafny

The backend keeps a table of prompts. Each prompt has an id, a title, content, a type, tags, a version and an
`is_active` flag, and at most one prompt per type should be active. The HTTP handlers in
`backend/app/main.py` create, read, update, delete, activate and list prompts. The read-only helpers
in `backend/app/prompts_loader.py` look up the active prompt of a type. The agent graph runs a
bounded correction loop: the reasoner answers, the verifier reviews the answer, and the reasoner is
asked again with a correction message. In the current graph that message comes from the active
`correction_feedback` prompt or a default template. The older graph hard-codes it.

Modules, one per source concern:

- `Wrappers` (`wrappers.dfy`): `Option` and `Result`.
- `PromptModel` (`prompt_model.dfy`):
  - the `Prompt` record, with its column widths and defaults;
  - the invariants: unique ids, titles and types within their column widths, and at most one active prompt per type;
  - the first-match lookups by id and by active type.
- `Schemas` (`schemas.dfy`):
  - the `PromptCreate` and `PromptUpdate` request shapes and their validity predicates;
  - the `PromptList` and `PromptActivateResponse` response shapes.
- `PromptsLoader` (`prompts_loader.dfy`): `get_active_prompt`, `get_prompt_by_id` and `get_prompt_metadata`. Each is a pure function of a `Snapshot`: the rows, or a storage fault. A fault yields `None`.
- `PromptTableSpec` (`prompt_table_spec.dfy`):
  - one function per handler giving the rows after a successful call;
  - the lemmas that say what those functions mean and when the one-active-per-type invariant is kept.
- `PromptStore` (`prompt_store.dfy`):
  - the class `PromptTable`, which holds the rows in a `seq` field;
  - one method per handler, proved against `PromptTableSpec`;
  - the `setattr` loop of `update_prompt`, proved against the field-by-field patch.
- `PromptFormat` (`prompt_format.dfy`): the part of Python's `str.format` the loop uses. That is the two named fields and the doubled braces; any other brace fails. A reference description writes a template as a sequence of pieces: literal characters and the two fields.
- `AgentLoop` (`agent_loop.dfy`): the loop shared by both graphs, as a specification function.
  - The reasoner and verifier are oracles: functions of the call number and the text they receive.
  - A `Run` records the inputs of every call, so call counts are the lengths of those records.
  - The loop takes a message builder: a function from the feedback to the next message, or None where building it raises.
- `AppAgentGraph` (`app_agent_graph.dfy`) and `LegacyAgentGraph` (`legacy_agent_graph.dfy`): the two `run_reasone_dagent_graph` handlers, as methods with the source's loop over `range(MAX_CORRECTION_LOOPS)`.
  - Each module supplies its own message builder: formatting the template, or the hard-coded f-string.

The model assumes the default SQLite database (backend/app/database.py:10-12). The id rule, the unenforced string widths and the treatment of a negative `LIMIT` or `OFFSET` are SQLite's. `DATABASE_URL` can name another backend, which is not modelled.

Ids are given as SQLite does for an integer primary key: one more than the largest id in use, or
1 in an empty table. Each handler is modelled as one atomic step: it either makes its whole change or
leaves the rows as they were. `update_prompt` is the exception in the source: it builds its response
after the commit, so it can answer 400 with the change already made (see "Left out").

Behaviour worth noting:

- A request body that breaks the schema bounds is rejected by the framework with status 422 before
  the handler runs. The handler's own 400 branch never sees it.
- After the loop, the graph returns the last reasoner answer even when that answer is `None`. It does
  not fall back to an earlier answer.
- The loop makes exactly `MAX_CORRECTION_LOOPS` verifier calls whenever a message can be built. A
  clean verdict does not stop it early.

## Model

| member | source | states |
|---|---|---|
| PromptModel.IndexOfId | backend/app/main.py:257-262 | The lookup by id yields the first row with that id. No earlier row has it. It yields nothing exactly when no row has the id. |
| PromptModel.IndexOfActive | backend/app/prompts_loader.py:22-25 | The lookup yields the first row that is active and of the type. No earlier row is. It yields nothing exactly when no row is. |
| PromptModel.IndexOfIdUnique | backend/app/models/prompt_model.py:26 | Under the primary key, looking up a row's id finds that very row. |
| Schemas.PromptCreateWithDefaults | backend/app/schemas/__init__.py:16-17 | A create request that leaves tags and is_active out gets tags `""` and is_active false. |
| Schemas.ValidCreateFitsColumns | backend/app/schemas/__init__.py:13-15 | A valid create request's title and type fit the 255- and 100-character columns. |
| Schemas.ValidUpdateFitsColumns | backend/app/schemas/__init__.py:25-27 | A valid update request's title and type, when sent, fit their columns. |
| Schemas.ValidCreateMayExceedTagsWidth | backend/app/schemas/__init__.py:16 | Tags are not bounded by the schema: a valid request can carry tags longer than the 500-character column. |
| PromptsLoader.GetActivePrompt | backend/app/prompts_loader.py:20-31 | A storage fault gives None. Otherwise the result is None exactly when no row is active of the type. When it is not None, it is the content of the first such row. |
| PromptsLoader.GetPromptById | backend/app/prompts_loader.py:44-52 | A fault gives None. The result is None exactly when no row has the id. With unique ids, it is the content of the row with that id. |
| PromptsLoader.GetPromptMetadata | backend/app/prompts_loader.py:65-86 | The result is None exactly when get_active_prompt is None. Otherwise it is the first active row of the type, the same row whose content get_active_prompt returns. |
| PromptsLoader.ActiveLookupFindsSoleActive | backend/app/prompts_loader.py:22-26 | Under the invariant, both active lookups return the single active row of the type. |
| PromptsLoader.ActiveLookupIgnoresRowOrder | backend/app/prompts_loader.py:22-25 | When one ordering of the rows keeps the invariant, every reordering gives the same get_active_prompt. |
| PromptTableSpec.NextId | backend/app/models/prompt_model.py:26 | A new id is at least 1 and greater than every id in use. It is 1 or one more than an existing id. |
| PromptTableSpec.CreateAsWrittenNeverInserts | backend/app/main.py:285-302 | As written, no create request changes the table. Every valid one is answered 400. |
| PromptTableSpec.DeactivatedKeepsIds | backend/app/main.py:280-283 | The bulk deactivation changes nothing but is_active. |
| PromptTableSpec.CreateKeepsUniqueIds | backend/app/main.py:285-294 | A create keeps ids unique. |
| PromptTableSpec.CreateEffect | backend/app/main.py:279-293 | A create appends the new row. An active create leaves the new row the only active one of its type. An inactive create leaves every existing row unchanged. Rows of other types are never touched, and existing rows only lose their active flag. |
| PromptTableSpec.CreateThenGet | backend/app/main.py:285-296 | The inserted row has the request's title, content, type and is_active. Its tags are the request's or `""`, and its version is 1. Looking up its id finds exactly it. |
| PromptTableSpec.CreateKeepsColumnWidths | backend/app/models/prompt_model.py:27-29 | A valid create keeps every row's title within 255 characters and type within 100. |
| PromptTableSpec.DefaultedCreateEffect | backend/app/main.py:279-291 | A create that sends only title, content and type changes no existing row and appends an inactive row with tags `""` and version 1. |
| PromptTableSpec.CreatePreservesSingleActive | backend/app/main.py:279-293 | A create keeps at most one active prompt per type. |
| PromptTableSpec.SetAllUpdateData | backend/app/main.py:331-337 | Setting the dumped fields in order equals taking each sent field and keeping each absent one. Id and version never change. |
| PromptTableSpec.UpdateEffect | backend/app/main.py:322-333 | The target becomes its patched value. An update without is_active=True leaves every other row unchanged. With is_active=True it switches off exactly the other active rows of `request.type or prompt.type`. |
| PromptTableSpec.UpdateKeepsColumnWidths | backend/app/models/prompt_model.py:27-29 | A valid update keeps every row's title and type within their column widths. |
| PromptTableSpec.UpdateKeepsUniqueIds | backend/app/main.py:330-333 | An update keeps ids unique. |
| PromptTableSpec.UpdatePreservesSingleActive | backend/app/main.py:322-333 | An update keeps the invariant when it sends is_active=True, or leaves the row inactive, or keeps its type, or moves it to a type with no other active row. |
| PromptTableSpec.UpdateOutsideCaseBreaksSingleActive | backend/app/main.py:322-333 | In every other case the update breaks the invariant. The guard is therefore exact: the invariant survives an update exactly in the cases above. |
| PromptTableSpec.UpdateTypeChangeBreaksSingleActive | backend/app/main.py:323-333 | Counterexample: moving an active prompt to a type that already has an active prompt, without is_active=True, leaves two active prompts of that type. |
| PromptTableSpec.ActivateEffect | backend/app/main.py:401-409 | The target becomes active and every other row of its type inactive. Rows of other types are unchanged, and no column but is_active changes. |
| PromptTableSpec.ActivatePreservesSingleActive | backend/app/main.py:401-409 | Activation keeps at most one active prompt per type. |
| PromptTableSpec.ActivateIdempotent | backend/app/main.py:401-409 | In a table that satisfies the invariant, activating an already-active prompt changes nothing. |
| PromptTableSpec.DeleteEffect | backend/app/main.py:370-372 | Deletion removes exactly one copy of that row, and its id is gone. |
| PromptTableSpec.DeleteKeepsColumnWidths | backend/app/main.py:370 | Deletion keeps every remaining row's title and type within their column widths. |
| PromptTableSpec.DeleteKeepsUniqueIds | backend/app/main.py:370 | Deletion keeps ids unique. |
| PromptTableSpec.DeletePreservesSingleActive | backend/app/main.py:370 | Deletion keeps at most one active prompt per type. |
| PromptTableSpec.DeleteSoleActiveClearsLookup | backend/app/main.py:363-372 | After deleting the only active prompt of a type, get_active_prompt for that type returns None. |
| PromptTableSpec.Filtered | backend/app/main.py:223-230 | A row is in the filtered list exactly when it is in the table and matches the type and tag filters. |
| PromptTableSpec.FilteredCounts | backend/app/main.py:223-240 | The filtered list holds each matching row exactly as often as the table does, and no other row. So `total` is the number of matching rows. |
| PromptTableSpec.Window | backend/app/main.py:232 | Offset and limit yield the contiguous slice starting at the offset. It has at most `limit` rows, or all the rest when the limit is negative. |
| PromptStore.ApplyUpdateData | backend/app/main.py:331-333 | The `setattr` loop over the dumped fields yields the patched row. Id and version are unchanged. |
| PromptStore.PromptTable.Create | backend/app/main.py:268-304 | An invalid body gives 422 and no change. A valid one gives the created rows and returns the new row. Unique ids, the title and type widths, and one-active-per-type are kept. |
| PromptStore.PromptTable.Get | backend/app/main.py:249-265 | The result is Ok exactly when a row has the id, and then it is that row. Otherwise it is 404. Nothing changes. |
| PromptStore.PromptTable.Update | backend/app/main.py:307-352 | An invalid body gives 422 and a missing id gives 404, both with no change. Otherwise the table becomes the updated rows and the patched row is returned. Unique ids and the title and type widths are kept. One-active-per-type is kept unless an active prompt moves to a type that already has another active prompt. |
| PromptStore.PromptTable.Delete | backend/app/main.py:355-383 | A missing id gives 404 and no change. Otherwise exactly that row is removed and "Prompt <id> deleted successfully" is returned. Unique ids, the title and type widths, and one-active-per-type are kept. |
| PromptStore.PromptTable.Activate | backend/app/main.py:386-418 | A missing id gives 404 and no change. Otherwise the activated rows result, and the response carries the target with is_active true. Unique ids, the title and type widths, and one-active-per-type are kept. |
| PromptStore.PromptTable.List | backend/app/main.py:207-246 | Total is the size of the filtered set, not of the page. Items are the filtered rows from offset `(page-1)*page_size`, contiguous, at most page_size of them. Page and page size are echoed. |
| PromptFormat.Format | backend/app/graph/agent_graph.py:34 | A template without braces formats to itself. |
| PromptFormat.FormatPrinted | backend/app/graph/agent_graph.py:34 | A template written from pieces, with braces doubled, always formats. The result replaces each `{feedback}` with the feedback and each `{user_input}` with the user input, and turns `{{` and `}}` into single braces. |
| PromptFormat.FormatOnlyPrinted | backend/app/graph/agent_graph.py:34 | A template that formats is always written from such pieces, and its result is the text those pieces stand for. Any other use of a brace raises. |
| PromptFormat.FormatFailsOnTemplateOnly | backend/app/graph/agent_graph.py:34 | Whether formatting fails depends on the template only, not on the feedback or the user input. |
| PromptFormat.FormatDefaultCorrection | backend/app/graph/agent_graph.py:11-14 | The default template formats to "The previous answer had issues: " + feedback + "\n\nPlease correct it.\n\nOriginal question:\n" + user input. |
| AgentLoop.Feedback | backend/app/graph/agent_graph.py:30 | The feedback is the verdict's `issues` when the verdict is a mapping that has them. Otherwise it is "Unspecified issues detected". |
| AgentLoop.Corrections | backend/app/graph/agent_graph.py:24-36 | The loop makes at most `left` verifier calls. It makes one reasoner call per verifier call, one fewer if formatting raises, and only extends the call records. |
| AgentLoop.RunGraph | backend/app/graph/agent_graph.py:17-38 | The reasoner first gets the user input. The verifier is called at most MAX_CORRECTION_LOOPS times. The run is exactly "No response generated" with no verifier call when the first answer is None. |
| AgentLoop.CorrectionsReviewAnswers | backend/app/graph/agent_graph.py:24-38 | Each iteration keeps every verifier call reviewing the matching reasoner answer. A returned answer is the last reasoner answer. |
| AgentLoop.CorrectionsFollowVerdicts | backend/app/graph/agent_graph.py:28-36 | Each iteration keeps every later reasoner call receiving the message built from the previous verdict. |
| AgentLoop.VerifierSeesCurrentAnswer | backend/app/graph/agent_graph.py:28-29 | Verifier call k is given the answer of reasoner call k. |
| AgentLoop.ReasonerGetsCorrections | backend/app/graph/agent_graph.py:33-36 | Reasoner call k ≥ 1 is given the correction message built from verifier call k-1's feedback and the user input. |
| AgentLoop.ReturnsLastAnswer | backend/app/graph/agent_graph.py:25-38 | When the first answer is present and nothing raised, the result is the answer of the last reasoner call, `None` included. |
| AgentLoop.CorrectionsRunToBound | backend/app/graph/agent_graph.py:24-36 | There is no early exit. When every message can be built and every answer is present, all iterations run, whatever the verdicts. |
| AgentLoop.RunGraphCallCounts | backend/app/graph/agent_graph.py:7-36 | With a first answer and a message that can always be built, the verifier runs MAX_CORRECTION_LOOPS (1) times and the reasoner once more. |
| AgentLoop.CorrectionsNeverRaise | backend/app/graph/agent_graph.py:24-36 | A message builder that never fails never makes the loop raise. |
| AgentLoop.CorrectionsAgree | backend/graph/agent_graph.py:17-28 | Two message builders that agree on every feedback give identical loop runs. |
| AgentLoop.RunGraphAgree | backend/graph/agent_graph.py:10-30 | Two message builders that agree on every feedback give identical graph runs. |
| LegacyAgentGraph.LegacyNeverRaises | backend/graph/agent_graph.py:25-28 | The hard-coded message can always be built, so the older loop always returns. |
| AppAgentGraph.CorrectionTemplate | backend/app/graph/agent_graph.py:33 | The template is never empty. It is the active correction_feedback content, or the default when there is none or it is empty. |
| AppAgentGraph.RunReasonedAgentGraph | backend/app/graph/agent_graph.py:17-38 | The loop computes RunGraph. A None first answer gives "No response generated" and no verifier call. With a first answer, a template that formats gives 1 verifier and 2 reasoner calls, and one that does not raises after the verifier call. |
| AppAgentGraph.TemplateDecidesCounts | backend/app/graph/agent_graph.py:24-36 | The call counts and whether the loop raises are decided by the template alone. |
| AppAgentGraph.DefaultTemplateIsLegacyMessage | backend/app/graph/agent_graph.py:11-14 | Formatting the default template gives exactly the older loop's hard-coded message (backend/graph/agent_graph.py:25-28). |
| AppAgentGraph.DefaultTemplateRunsAsLegacy | backend/app/graph/agent_graph.py:33-36 | With the same oracles, the loop with the default template and the older loop produce the same run. |
| AppAgentGraph.NoCorrectionPromptRunsAsLegacy | backend/app/graph/agent_graph.py:11-34 | With no usable correction_feedback prompt, the current loop behaves exactly as the older loop. That covers none active, an empty one, and a storage fault. |
| LegacyAgentGraph.RunReasonedAgentGraph | backend/graph/agent_graph.py:10-30 | The loop computes RunGraph with the hard-coded message and never raises. A None first answer gives "No response generated". Otherwise there is 1 verifier call and 2 reasoner calls, the second getting exactly the hard-coded message. |

## Left out

- HTTP routing, sessions, transactions and isolation are not modelled. Each handler is one atomic step on the rows, and concurrent requests are not modelled.
- The `/health`, `/prompt`, `/reason` and `verify` handlers are not modelled, nor are the frontend and the language-model wrappers. The agents appear only as the oracles of `AgentLoop.Agents`.
- `created_at` and `updated_at` are not modelled: they come from the wall clock.
- PromptTableSpec.Filtered: the tag filter is a case-sensitive substring test. The source's `ilike` folds case and treats `%` and `_` in the filter as wildcards.
- PromptStore.PromptTable.List: the type filter is an optional value. The `PromptType` enum and its `all` default live in a schema module that is not part of this model.
- PromptStore.PromptTable.List: the validation-error branch that replaces the items with a message string is not modelled.
- PromptStore.PromptTable.Update: an explicit JSON `null` for a field is treated as an absent field. In the source it is dumped and set, and for title, content and type the commit then fails with 400.
- PromptStore.PromptTable.Update: the source builds its response after `db.commit()`. When that fails, it answers 400 but the change stays committed. This happens after an explicit `null` for tags or is_active, because the response requires text and a boolean. Without the `version` column (see Findings), it happens after every update that reaches the commit. The model returns the patched row.
- PromptStore.PromptTable.Update: a commit that fails for a reason other than validation (status 400) is not modelled, and neither are such failures in delete and activate.
- PromptStore.PromptTable.Update: the one-active-per-type invariant is promised only when the update does not leave the row active under a new type that already has another active prompt. The source breaks the invariant in exactly that case (see `UpdateOutsideCaseBreaksSingleActive` and `UpdateTypeChangeBreaksSingleActive`).
- PromptStore.PromptTable.Create: the model keeps the `version` column that the handler writes (see Findings). Get, update and list also read `version` when they build their responses.
- PromptsLoader.GetPromptMetadata: models the dictionary with its `version` entry. Without the column, reading `version` raises, and the helper returns None (see Findings).
- The 500-character width of `tags` is not an invariant of the table. The schema does not bound tags, and the database does not enforce string widths.
- PromptTableSpec.NextId: once the largest id reaches the 64-bit limit, the database picks ids at random. That case is not modelled.
- PromptFormat.Format: conversions (`!r`), format specs (`:>10`), positional fields, indexing and attribute access in a template count as failures. Python would expand some of them.
- AgentLoop.Feedback: `issues` is modelled as text. A non-string value stands for its `str()` rendering.
- AppAgentGraph.RunReasonedAgentGraph: the store is one snapshot for the whole run. The source re-reads the template in each iteration, and a concurrent write could change it between iterations.
- An exception raised by a reasoner or verifier call, such as a connection error, is not modelled. Only the formatting failure is modelled as `Raised`.

## Findings

| source | as written | input that shows it | evidently intended | confidence | as-written member | corrected member |
|---|---|---|---|---|---|---|
| backend/app/main.py:289 | create_prompt passes `version=1` to the `Prompt` constructor. The `version` column is commented out (backend/app/models/prompt_model.py:31), so the declarative constructor rejects the keyword. The handler rolls back and answers 400. | Any valid create request, e.g. title "t", content "c", type "x" | The row is inserted with version 1 and returned | not executed | PromptTableSpec.CreateAsWrittenNeverInserts | PromptStore.PromptTable.Create |
