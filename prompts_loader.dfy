/**
 * The read-only lookups of backend/app/prompts_loader.py. Each one opens a
 * session, runs one filtered query and returns a value or None; every
 * storage fault is caught and turned into None, so none of them raises.
 */
module PromptsLoader {
  import opened Wrappers
  import opened PromptModel

  /** What a query sees: the table's rows in storage order, or a storage fault. */
  datatype Snapshot = Rows(rows: seq<Prompt>) | Fault

  /** `get_active_prompt`: the content of the first active row of type `t`. */
  function GetActivePrompt(s: Snapshot, t: string): (r: Option<string>)
    ensures s.Fault? ==> r.None?
    ensures s.Rows? ==> (r.None? <==> forall j :: 0 <= j < |s.rows| ==> !ActiveOfType(s.rows[j], t))
    ensures s.Rows? && r.Some? ==>
      exists i :: 0 <= i < |s.rows| && ActiveOfType(s.rows[i], t) && s.rows[i].content == r.value
                  && forall j :: 0 <= j < i ==> !ActiveOfType(s.rows[j], t)
  {
    match s
    case Fault => None
    case Rows(rows) =>
      match IndexOfActive(rows, t)
      case None => None
      case Some(k) => Some(rows[k].content)
  }

  /** `get_prompt_by_id`: the content of the row with id `id`. */
  function GetPromptById(s: Snapshot, id: int): (r: Option<string>)
    ensures s.Fault? ==> r.None?
    ensures s.Rows? ==> (r.None? <==> forall j :: 0 <= j < |s.rows| ==> s.rows[j].id != id)
    ensures s.Rows? && UniqueIds(s.rows) ==>
      forall j :: 0 <= j < |s.rows| && s.rows[j].id == id ==> r == Some(s.rows[j].content)
  {
    match s
    case Fault => None
    case Rows(rows) =>
      match IndexOfId(rows, id)
      case None => None
      case Some(k) => Some(rows[k].content)
  }

  /**
   * `get_prompt_metadata`: every column of the row `get_active_prompt`
   * reads (the dictionary of id, title, content, type, tags, version and
   * is_active).
   */
  function GetPromptMetadata(s: Snapshot, t: string): (r: Option<Prompt>)
    ensures r.None? <==> GetActivePrompt(s, t).None?
    ensures r.Some? ==> s.Rows? && r.value in s.rows && ActiveOfType(r.value, t)
    ensures r.Some? ==> GetActivePrompt(s, t) == Some(r.value.content)
    ensures r.Some? ==> exists i :: 0 <= i < |s.rows| && s.rows[i] == r.value
                                  && forall j :: 0 <= j < i ==> !ActiveOfType(s.rows[j], t)
  {
    match s
    case Fault => None
    case Rows(rows) =>
      match IndexOfActive(rows, t)
      case None => None
      case Some(k) => Some(rows[k])
  }

  /** Under the one-active-per-type invariant the first active row of a type is its only one. */
  lemma ActiveLookupFindsSoleActive(rows: seq<Prompt>, t: string, k: nat)
    requires AtMostOneActivePerType(rows)
    requires k < |rows| && ActiveOfType(rows[k], t)
    ensures GetActivePrompt(Rows(rows), t) == Some(rows[k].content)
    ensures GetPromptMetadata(Rows(rows), t) == Some(rows[k])
  {
  }

  /**
   * Under the invariant the lookup does not depend on row order: when one
   * ordering keeps it, every reordering of the same rows gives the same answer.
   */
  lemma ActiveLookupIgnoresRowOrder(rows1: seq<Prompt>, rows2: seq<Prompt>, t: string)
    requires multiset(rows1) == multiset(rows2)
    requires AtMostOneActivePerType(rows1)
    ensures GetActivePrompt(Rows(rows1), t) == GetActivePrompt(Rows(rows2), t)
  {
    match IndexOfActive(rows1, t)
    case Some(k) =>
      assert rows1[k] in multiset(rows2);
      var k2 :| 0 <= k2 < |rows2| && rows2[k2] == rows1[k];
      var first := IndexOfActive(rows2, t).value;
      assert rows2[first] in multiset(rows1);
      var j :| 0 <= j < |rows1| && rows1[j] == rows2[first];
      ActiveLookupFindsSoleActive(rows1, t, k);
      ActiveLookupFindsSoleActive(rows1, t, j);
    case None =>
      forall j | 0 <= j < |rows2|
        ensures !ActiveOfType(rows2[j], t)
      {
        assert rows2[j] in multiset(rows1);
      }
  }
}
