/**
 * The prompt-management handlers of backend/app/main.py as methods of one
 * table object. Each handler is modelled as one atomic step: it either makes
 * its whole change or, on an error, leaves the rows as they were. The source's
 * update_prompt is the exception: it builds its response after the commit and
 * can answer 400 with the change already made. Request bodies that break
 * the schema bounds never reach a handler; they are answered 422.
 */
module PromptStore {
  import opened Wrappers
  import opened PromptModel
  import opened Schemas
  import opened PromptTableSpec

  /** The `setattr` loop of update_prompt over the dumped fields of the request. */
  method ApplyUpdateData(p: Prompt, req: PromptUpdate) returns (q: Prompt)
    ensures q == Patched(p, req)
    ensures q.id == p.id && q.version == p.version
  {
    var data := UpdateData(req);
    q := p;
    for i := 0 to |data|
      invariant SetAll(q, data[i..]) == SetAll(p, data)
    {
      assert data[i..][1..] == data[i + 1..];
      q := SetAttr(q, data[i]);
    }
    SetAllUpdateData(p, req);
  }

  /** The decimal text of an integer, as an f-string prints it. */
  function IntToString(n: int): (s: string)
    ensures |s| >= 1
  {
    if n < 0 then "-" + NatToString(-n) else NatToString(n)
  }

  function NatToString(n: nat): (s: string)
    ensures |s| >= 1
    ensures forall i :: 0 <= i < |s| ==> '0' <= s[i] <= '9'
  {
    var digit := ['0' + (n % 10) as char];
    if n < 10 then digit else NatToString(n / 10) + digit
  }

  /** The message delete_prompt answers with. */
  function DeletedMessage(id: int): string {
    "Prompt " + IntToString(id) + " deleted successfully"
  }

  /** The reply of activate_prompt for the refreshed row. */
  function ActivateResponse(p: Prompt): PromptActivateResponse {
    PromptActivateResponse(p.id, p.title, p.ptype, p.isActive,
      "Prompt '" + p.title + "' activated for type '" + p.ptype + "'")
  }

  /** The prompts table. */
  class PromptTable {
    /** The rows, in storage order. */
    var rows: seq<Prompt>

    /** The primary key holds, and every title and type fits its column. */
    ghost predicate Valid()
      reads this
    {
      UniqueIds(rows) && RowsFitColumns(rows)
    }

    constructor ()
      ensures Valid() && rows == []
    {
      rows := [];
    }

    /** create_prompt, with the version column the handler writes. */
    method Create(req: PromptCreate) returns (r: Result<Prompt, Error>)
      requires Valid()
      modifies this
      ensures Valid()
      ensures !CreateValid(req) ==> r == Err(Unprocessable) && rows == old(rows)
      ensures CreateValid(req) ==> r == Ok(NewPrompt(old(rows), req)) && rows == CreatedRows(old(rows), req)
      ensures AtMostOneActivePerType(old(rows)) ==> AtMostOneActivePerType(rows)
    {
      if !CreateValid(req) {
        return Err(Unprocessable);
      }
      CreateKeepsUniqueIds(rows, req);
      CreateKeepsColumnWidths(rows, req);
      if AtMostOneActivePerType(rows) {
        CreatePreservesSingleActive(rows, req);
      }
      var prompt := NewPrompt(rows, req);
      if req.isActive {
        rows := Deactivated(rows, req.ptype, None);
      }
      rows := rows + [prompt];
      r := Ok(prompt);
    }

    /** get_prompt. */
    method Get(id: int) returns (r: Result<Prompt, Error>)
      requires Valid()
      ensures r.Ok? <==> exists i :: 0 <= i < |rows| && rows[i].id == id
      ensures r.Ok? ==> r.value in rows && r.value.id == id
      ensures r.Err? ==> r.error == NotFound
    {
      match IndexOfId(rows, id)
      case None => r := Err(NotFound);
      case Some(k) => r := Ok(rows[k]);
    }

    /** update_prompt. */
    method Update(id: int, req: PromptUpdate) returns (r: Result<Prompt, Error>)
      requires Valid()
      modifies this
      ensures Valid()
      ensures !UpdateValid(req) ==> r == Err(Unprocessable) && rows == old(rows)
      ensures UpdateValid(req) && IndexOfId(old(rows), id).None? ==> r == Err(NotFound) && rows == old(rows)
      ensures UpdateValid(req) && IndexOfId(old(rows), id).Some? ==>
        var k := IndexOfId(old(rows), id).value;
        rows == UpdatedRows(old(rows), k, req) && r == Ok(rows[k])
      ensures AtMostOneActivePerType(old(rows)) && (forall i :: 0 <= i < |old(rows)| && old(rows)[i].id == id ==> UpdateKeepsSingleActiveCase(old(rows), i, req))
              ==> AtMostOneActivePerType(rows)
    {
      if !UpdateValid(req) {
        return Err(Unprocessable);
      }
      var found := IndexOfId(rows, id);
      if found.None? {
        return Err(NotFound);
      }
      var k := found.value;
      UpdateKeepsUniqueIds(rows, k, req);
      UpdateKeepsColumnWidths(rows, k, req);
      if AtMostOneActivePerType(rows) && UpdateKeepsSingleActiveCase(rows, k, req) {
        UpdatePreservesSingleActive(rows, k, req);
      }
      var prompt := rows[k];
      if req.isActive == Some(true) {
        rows := Deactivated(rows, req.ptype.GetOr(prompt.ptype), Some(id));
      }
      var patched := ApplyUpdateData(prompt, req);
      rows := rows[k := patched];
      r := Ok(patched);
    }

    /** delete_prompt. */
    method Delete(id: int) returns (r: Result<string, Error>)
      requires Valid()
      modifies this
      ensures Valid()
      ensures IndexOfId(old(rows), id).None? ==> r == Err(NotFound) && rows == old(rows)
      ensures IndexOfId(old(rows), id).Some? ==>
        rows == RemovedRows(old(rows), IndexOfId(old(rows), id).value) && r == Ok(DeletedMessage(id))
      ensures AtMostOneActivePerType(old(rows)) ==> AtMostOneActivePerType(rows)
    {
      var found := IndexOfId(rows, id);
      if found.None? {
        return Err(NotFound);
      }
      var k := found.value;
      DeleteKeepsUniqueIds(rows, k);
      DeleteKeepsColumnWidths(rows, k);
      if AtMostOneActivePerType(rows) {
        DeletePreservesSingleActive(rows, k);
      }
      rows := rows[..k] + rows[k + 1..];
      r := Ok(DeletedMessage(id));
    }

    /** activate_prompt. */
    method Activate(id: int) returns (r: Result<PromptActivateResponse, Error>)
      requires Valid()
      modifies this
      ensures Valid()
      ensures IndexOfId(old(rows), id).None? ==> r == Err(NotFound) && rows == old(rows)
      ensures IndexOfId(old(rows), id).Some? ==>
        var k := IndexOfId(old(rows), id).value;
        rows == ActivatedRows(old(rows), k) && r == Ok(ActivateResponse(rows[k])) && r.value.isActive
      ensures AtMostOneActivePerType(old(rows)) ==> AtMostOneActivePerType(rows)
    {
      var found := IndexOfId(rows, id);
      if found.None? {
        return Err(NotFound);
      }
      var k := found.value;
      ActivateEffect(rows, k);
      if AtMostOneActivePerType(rows) {
        ActivatePreservesSingleActive(rows, k);
      }
      var prompt := rows[k];
      rows := Deactivated(rows, prompt.ptype, Some(id));
      rows := rows[k := prompt.(isActive := true)];
      r := Ok(ActivateResponse(rows[k]));
    }

    /** list_prompts: filter, then page, and count the filtered rows. */
    method List(typeFilter: Option<string>, tags: Option<string>, page: int, pageSize: int) returns (r: PromptList)
      ensures r.total == |Filtered(rows, typeFilter, tags)|
      ensures r.page == page && r.pageSize == pageSize
      ensures forall p :: p in r.prompts ==> p in rows && Matches(p, typeFilter, tags)
      ensures pageSize >= 0 ==> |r.prompts| <= pageSize
      ensures var matching := Filtered(rows, typeFilter, tags);
        var off := PageOffset(page, pageSize);
        && (off >= |matching| ==> r.prompts == [])
        && (off < |matching| ==>
              && |r.prompts| == (if pageSize < 0 || |matching| - off <= pageSize then |matching| - off else pageSize)
              && r.prompts == matching[off..off + |r.prompts|])
    {
      var matching := Filtered(rows, typeFilter, tags);
      var items := Window(matching, PageOffset(page, pageSize), pageSize);
      r := PromptList(|matching|, items, page, pageSize);
    }
  }
}
