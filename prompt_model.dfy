/**
 * The `prompts` table row of backend/app/models/prompt_model.py, with the
 * column widths, the column defaults and the table-wide predicates the rest
 * of the model states its contracts with.
 */
module PromptModel {
  import opened Wrappers

  /** Declared widths of the String columns. */
  const TitleWidth: nat := 255
  const TypeWidth: nat := 100
  const TagsWidth: nat := 500

  /** Column defaults. */
  const DefaultTags: string := ""
  const DefaultIsActive: bool := false

  /** The version every new prompt starts at. */
  const InitialVersion: int := 1

  /**
   * The attributes the declarative class maps. The `version` column is
   * commented out in the class, so `version` is not one of them.
   */
  const MappedAttributes: set<string> :=
    {"id", "title", "content", "type", "tags", "created_at", "updated_at", "is_active"}

  /**
   * One row. `id` is the primary key; title, content and type are non-null
   * (a Dafny string is never null). The timestamps are not modelled.
   * `version` is the column the handlers and the response schema expect.
   */
  datatype Prompt = Prompt(
    id: int,
    title: string,
    content: string,
    ptype: string,
    tags: string,
    version: int,
    isActive: bool)

  /**
   * The title and type of this row fit their declared widths. The tags width
   * is left out: no schema bounds tags, and the database does not enforce it.
   */
  predicate FitsColumns(p: Prompt) {
    |p.title| <= TitleWidth && |p.ptype| <= TypeWidth
  }

  /** Every row fits the title and type widths. */
  predicate RowsFitColumns(rows: seq<Prompt>) {
    forall i :: 0 <= i < |rows| ==> FitsColumns(rows[i])
  }

  /** The row is the active prompt of type `t`. */
  predicate ActiveOfType(p: Prompt, t: string) {
    p.ptype == t && p.isActive
  }

  /** Primary key: no two rows share an id. */
  predicate UniqueIds(rows: seq<Prompt>) {
    forall i, j :: 0 <= i < j < |rows| ==> rows[i].id != rows[j].id
  }

  /** The documented invariant: at most one active prompt per type. */
  predicate AtMostOneActivePerType(rows: seq<Prompt>) {
    forall i, j :: 0 <= i < j < |rows| && rows[i].isActive && rows[j].isActive ==> rows[i].ptype != rows[j].ptype
  }

  /** `query(Prompt).filter(Prompt.id == id).first()`: the position of the first row with that id. */
  function IndexOfId(rows: seq<Prompt>, id: int): (r: Option<nat>)
    ensures r.Some? ==> r.value < |rows| && rows[r.value].id == id
    ensures r.Some? ==> forall j :: 0 <= j < r.value ==> rows[j].id != id
    ensures r.None? <==> forall j :: 0 <= j < |rows| ==> rows[j].id != id
  {
    if rows == [] then None
    else if rows[0].id == id then Some(0)
    else match IndexOfId(rows[1..], id)
      case None => None
      case Some(k) => Some(k + 1)
  }

  /** `filter(Prompt.type == t, Prompt.is_active == True).first()`: the position of the first active row of type `t`. */
  function IndexOfActive(rows: seq<Prompt>, t: string): (r: Option<nat>)
    ensures r.Some? ==> r.value < |rows| && ActiveOfType(rows[r.value], t)
    ensures r.Some? ==> forall j :: 0 <= j < r.value ==> !ActiveOfType(rows[j], t)
    ensures r.None? <==> forall j :: 0 <= j < |rows| ==> !ActiveOfType(rows[j], t)
  {
    if rows == [] then None
    else if ActiveOfType(rows[0], t) then Some(0)
    else match IndexOfActive(rows[1..], t)
      case None => None
      case Some(k) => Some(k + 1)
  }

  /** With unique ids, the row found by id is the only row with that id. */
  lemma {:induction false} IndexOfIdUnique(rows: seq<Prompt>, k: nat)
    requires UniqueIds(rows) && k < |rows|
    ensures IndexOfId(rows, rows[k].id) == Some(k)
  {
  }
}
