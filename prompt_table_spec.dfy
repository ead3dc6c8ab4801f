/**
 * What each prompt-management handler of backend/app/main.py does to the
 * table, as functions of the rows before the call, and the lemmas that say
 * what those functions mean: which rows change, which stay, and when the
 * one-active-per-type invariant is kept.
 */
module PromptTableSpec {
  import opened Wrappers
  import opened PromptModel
  import opened Schemas
  import PromptsLoader

  /** The keyword arguments create_prompt passes to the `Prompt` constructor. */
  const CreateKeywords: set<string> := {"title", "content", "type", "version", "tags", "is_active"}

  /**
   * The id the store gives a new row: one more than the largest id in use,
   * or 1 for an empty table (an integer primary key's rowid).
   */
  function NextId(rows: seq<Prompt>): (n: int)
    ensures n >= 1
    ensures forall i :: 0 <= i < |rows| ==> rows[i].id < n
    ensures n == 1 || exists i :: 0 <= i < |rows| && n == rows[i].id + 1
  {
    if rows == [] then 1
    else
      var rest := NextId(rows[1..]);
      if rows[0].id + 1 > rest then rows[0].id + 1 else rest
  }

  /** The row create_prompt inserts. */
  function NewPrompt(rows: seq<Prompt>, req: PromptCreate): Prompt {
    Prompt(NextId(rows), req.title, req.content, req.ptype, req.tags.GetOr(DefaultTags), InitialVersion, req.isActive)
  }

  /**
   * The bulk `update({"is_active": False})` over the active rows of type `t`,
   * skipping the row whose id is `except` when one is given.
   */
  function Deactivated(rows: seq<Prompt>, t: string, except: Option<int>): seq<Prompt> {
    seq(|rows|, i requires 0 <= i < |rows| =>
      if ActiveOfType(rows[i], t) && except != Some(rows[i].id) then rows[i].(isActive := false) else rows[i])
  }

  // ---------------------------------------------------------------- create

  /** The rows after a successful create: siblings deactivated if the new row is active, then the insert. */
  function CreatedRows(rows: seq<Prompt>, req: PromptCreate): seq<Prompt> {
    (if req.isActive then Deactivated(rows, req.ptype, None) else rows) + [NewPrompt(rows, req)]
  }

  /**
   * create_prompt as written: the constructor receives a `version` keyword
   * that the declarative class does not map, raises, and the handler answers
   * 400 after rolling back (the deactivation included).
   */
  function CreateAsWritten(rows: seq<Prompt>, req: PromptCreate): (seq<Prompt>, Result<Prompt, Error>) {
    if !CreateValid(req) then (rows, Err(Unprocessable))
    else if !(CreateKeywords <= MappedAttributes) then (rows, Err(BadRequest))
    else (CreatedRows(rows, req), Ok(NewPrompt(rows, req)))
  }

  /** The failure kinds of the handlers: status 404, 400 and 422. */
  datatype Error = NotFound | BadRequest | Unprocessable

  /** As written, no create request ever inserts a row. */
  lemma CreateAsWrittenNeverInserts(rows: seq<Prompt>, req: PromptCreate)
    ensures CreateAsWritten(rows, req).0 == rows
    ensures CreateAsWritten(rows, req).1.Err?
    ensures CreateValid(req) ==> CreateAsWritten(rows, req).1 == Err(BadRequest)
  {
    assert "version" in CreateKeywords;
    assert "version" !in MappedAttributes;
  }

  /** Deactivation touches only `is_active`, so ids are kept. */
  lemma DeactivatedKeepsIds(rows: seq<Prompt>, t: string, except: Option<int>)
    ensures |Deactivated(rows, t, except)| == |rows|
    ensures forall i :: 0 <= i < |rows| ==> Deactivated(rows, t, except)[i] == rows[i].(isActive := Deactivated(rows, t, except)[i].isActive)
  {
  }

  /** A create keeps ids unique. */
  lemma CreateKeepsUniqueIds(rows: seq<Prompt>, req: PromptCreate)
    requires UniqueIds(rows)
    ensures UniqueIds(CreatedRows(rows, req))
  {
    var out := CreatedRows(rows, req);
    DeactivatedKeepsIds(rows, req.ptype, None);
    assert forall i :: 0 <= i < |rows| ==> out[i].id == rows[i].id;
    assert out[|rows|].id == NextId(rows);
  }

  /**
   * An active create leaves the new row the one and only active row of its
   * type; every existing row keeps its columns except that active rows of
   * that type are switched off, and an inactive create changes no existing
   * row.
   */
  lemma CreateEffect(rows: seq<Prompt>, req: PromptCreate)
    ensures |CreatedRows(rows, req)| == |rows| + 1
    ensures CreatedRows(rows, req)[|rows|] == NewPrompt(rows, req)
    ensures !req.isActive ==> CreatedRows(rows, req)[..|rows|] == rows
    ensures forall i :: 0 <= i < |rows| && rows[i].ptype != req.ptype ==> CreatedRows(rows, req)[i] == rows[i]
    ensures forall i :: 0 <= i < |rows| ==>
      CreatedRows(rows, req)[i] == rows[i] || CreatedRows(rows, req)[i] == rows[i].(isActive := false)
    ensures req.isActive ==>
      forall i :: 0 <= i < |rows| + 1 ==> (ActiveOfType(CreatedRows(rows, req)[i], req.ptype) <==> i == |rows|)
  {
  }

  /** The fields of the row create_prompt inserts, and get_prompt's lookup of its id finds exactly it. */
  lemma CreateThenGet(rows: seq<Prompt>, req: PromptCreate)
    ensures var p := NewPrompt(rows, req);
      && IndexOfId(CreatedRows(rows, req), p.id) == Some(|rows|)
      && CreatedRows(rows, req)[|rows|] == p
      && p.title == req.title && p.content == req.content && p.ptype == req.ptype
      && p.tags == (if req.tags.Some? then req.tags.value else "")
      && p.version == 1 && p.isActive == req.isActive
  {
    var out := CreatedRows(rows, req);
    var p := NewPrompt(rows, req);
    DeactivatedKeepsIds(rows, req.ptype, None);
    assert forall i :: 0 <= i < |rows| ==> out[i].id == rows[i].id;
    assert out[|rows|].id == p.id;
    var r := IndexOfId(out, p.id);
    assert r.Some?;
    assert r.value == |rows|;
  }

  /** A valid create keeps every title and type within its column width. */
  lemma CreateKeepsColumnWidths(rows: seq<Prompt>, req: PromptCreate)
    requires RowsFitColumns(rows) && CreateValid(req)
    ensures RowsFitColumns(CreatedRows(rows, req))
  {
    ValidCreateFitsColumns(req);
    CreateEffect(rows, req);
  }

  /**
   * A create that sends only title, content and type changes no existing row
   * and appends an inactive row with empty tags and version 1.
   */
  lemma DefaultedCreateEffect(rows: seq<Prompt>, title: string, content: string, ptype: string)
    ensures var out := CreatedRows(rows, PromptCreateWithDefaults(title, content, ptype));
      out == rows + [Prompt(NextId(rows), title, content, ptype, "", 1, false)]
  {
    var req := PromptCreateWithDefaults(title, content, ptype);
    CreateEffect(rows, req);
  }

  /** A create keeps the one-active-per-type invariant. */
  lemma CreatePreservesSingleActive(rows: seq<Prompt>, req: PromptCreate)
    requires AtMostOneActivePerType(rows)
    ensures AtMostOneActivePerType(CreatedRows(rows, req))
  {
    CreateEffect(rows, req);
  }

  // ---------------------------------------------------------------- update

  /** The row after `setattr` of every field the update request supplied. */
  function Patched(p: Prompt, req: PromptUpdate): Prompt {
    p.(title := req.title.GetOr(p.title),
       content := req.content.GetOr(p.content),
       ptype := req.ptype.GetOr(p.ptype),
       tags := req.tags.GetOr(p.tags),
       isActive := req.isActive.GetOr(p.isActive))
  }

  /** The type whose siblings an activating update switches off: `request.type or prompt.type`. */
  function ActivationType(p: Prompt, req: PromptUpdate): string {
    req.ptype.GetOr(p.ptype)
  }

  /** The rows after a successful update of the row at position `k`. */
  function UpdatedRows(rows: seq<Prompt>, k: nat, req: PromptUpdate): seq<Prompt>
    requires k < |rows|
  {
    var before := if req.isActive == Some(true) then Deactivated(rows, ActivationType(rows[k], req), Some(rows[k].id)) else rows;
    before[k := Patched(rows[k], req)]
  }

  /** One supplied field, as `model_dump(exclude_unset=True)` lists it. */
  datatype FieldValue = Title(title: string) | Content(content: string) | Type(ptype: string)
                      | Tags(tags: string) | IsActive(isActive: bool)

  /** The supplied fields of an update request, in declaration order. */
  function UpdateData(req: PromptUpdate): (fields: seq<FieldValue>)
    ensures |fields| <= 5
  {
    (if req.title.Some? then [Title(req.title.value)] else [])
    + ((if req.content.Some? then [Content(req.content.value)] else [])
    + ((if req.ptype.Some? then [Type(req.ptype.value)] else [])
    + ((if req.tags.Some? then [Tags(req.tags.value)] else [])
    + (if req.isActive.Some? then [IsActive(req.isActive.value)] else []))))
  }

  /** `setattr(prompt, field, value)` for one field. */
  function SetAttr(p: Prompt, f: FieldValue): Prompt {
    match f
    case Title(v) => p.(title := v)
    case Content(v) => p.(content := v)
    case Type(v) => p.(ptype := v)
    case Tags(v) => p.(tags := v)
    case IsActive(v) => p.(isActive := v)
  }

  /** The row after `setattr` of `fields` in order. */
  function SetAll(p: Prompt, fields: seq<FieldValue>): Prompt
    decreases |fields|
  {
    if fields == [] then p else SetAll(SetAttr(p, fields[0]), fields[1..])
  }

  /** A dump that starts with at most one field sets that field first, or starts with nothing. */
  lemma SetAllPrependOne(p: Prompt, first: seq<FieldValue>, rest: seq<FieldValue>, q: Prompt)
    requires (first == [] && q == p) || (|first| == 1 && q == SetAttr(p, first[0]))
    ensures SetAll(p, first + rest) == SetAll(q, rest)
  {
    if first == [] {
      assert first + rest == rest;
    } else {
      assert (first + rest)[1..] == rest;
    }
  }

  /** Setting the dumped tags and is_active fields. */
  lemma SetAllLastFields(p: Prompt, req: PromptUpdate)
    ensures SetAll(p, (if req.tags.Some? then [Tags(req.tags.value)] else [])
                      + (if req.isActive.Some? then [IsActive(req.isActive.value)] else []))
            == p.(tags := req.tags.GetOr(p.tags), isActive := req.isActive.GetOr(p.isActive))
  {
    var e4 := if req.tags.Some? then [Tags(req.tags.value)] else [];
    var e5 := if req.isActive.Some? then [IsActive(req.isActive.value)] else [];
    var p4 := p.(tags := req.tags.GetOr(p.tags));
    SetAllPrependOne(p, e4, e5, p4);
    SetAllPrependOne(p4, e5, [], p4.(isActive := req.isActive.GetOr(p.isActive)));
    assert e5 + [] == e5;
  }

  /**
   * Setting the dumped fields one by one is the same as taking each supplied
   * field and keeping each absent one: an update applies only what it was
   * given, and never touches id or version.
   */
  lemma {:induction false} SetAllUpdateData(p: Prompt, req: PromptUpdate)
    ensures SetAll(p, UpdateData(req)) == Patched(p, req)
    ensures Patched(p, req).id == p.id && Patched(p, req).version == p.version
  {
    var e1 := if req.title.Some? then [Title(req.title.value)] else [];
    var e2 := if req.content.Some? then [Content(req.content.value)] else [];
    var e3 := if req.ptype.Some? then [Type(req.ptype.value)] else [];
    var e4 := if req.tags.Some? then [Tags(req.tags.value)] else [];
    var e5 := if req.isActive.Some? then [IsActive(req.isActive.value)] else [];
    var p1 := p.(title := req.title.GetOr(p.title));
    var p2 := p1.(content := req.content.GetOr(p.content));
    var p3 := p2.(ptype := req.ptype.GetOr(p.ptype));
    SetAllPrependOne(p, e1, e2 + (e3 + (e4 + e5)), p1);
    SetAllPrependOne(p1, e2, e3 + (e4 + e5), p2);
    SetAllPrependOne(p2, e3, e4 + e5, p3);
    SetAllLastFields(p3, req);
  }

  /**
   * An update sets the target to its patched value; every other row is
   * unchanged, except that an activating update switches off the active
   * rows of the activation type.
   */
  lemma UpdateEffect(rows: seq<Prompt>, k: nat, req: PromptUpdate)
    requires UniqueIds(rows) && k < |rows|
    ensures |UpdatedRows(rows, k, req)| == |rows|
    ensures UpdatedRows(rows, k, req)[k] == Patched(rows[k], req)
    ensures req.isActive != Some(true) ==> forall i :: 0 <= i < |rows| && i != k ==> UpdatedRows(rows, k, req)[i] == rows[i]
    ensures req.isActive == Some(true) ==>
      forall i :: 0 <= i < |rows| && i != k ==>
        UpdatedRows(rows, k, req)[i] == (if ActiveOfType(rows[i], ActivationType(rows[k], req)) then rows[i].(isActive := false) else rows[i])
  {
  }

  /** An update keeps ids unique. */
  lemma UpdateKeepsUniqueIds(rows: seq<Prompt>, k: nat, req: PromptUpdate)
    requires UniqueIds(rows) && k < |rows|
    ensures UniqueIds(UpdatedRows(rows, k, req))
  {
    UpdateEffect(rows, k, req);
    SetAllUpdateData(rows[k], req);
    var out := UpdatedRows(rows, k, req);
    assert forall i :: 0 <= i < |rows| ==> out[i].id == rows[i].id;
  }

  /** A valid update keeps every title and type within its column width. */
  lemma UpdateKeepsColumnWidths(rows: seq<Prompt>, k: nat, req: PromptUpdate)
    requires RowsFitColumns(rows) && UpdateValid(req) && k < |rows|
    ensures RowsFitColumns(UpdatedRows(rows, k, req))
  {
    ValidUpdateFitsColumns(req);
    DeactivatedKeepsIds(rows, ActivationType(rows[k], req), Some(rows[k].id));
  }

  /**
   * The case that keeps the invariant: the update activates explicitly, or
   * leaves the row inactive, or leaves its type alone, or moves it to a type
   * with no other active row.
   */
  predicate UpdateKeepsSingleActiveCase(rows: seq<Prompt>, k: nat, req: PromptUpdate)
    requires k < |rows|
  {
    var q := Patched(rows[k], req);
    || req.isActive == Some(true) || !q.isActive || q.ptype == rows[k].ptype
    || forall i :: 0 <= i < |rows| && i != k && rows[i].isActive ==> rows[i].ptype != q.ptype
  }

  /** Outside the type-change case an update keeps the one-active-per-type invariant. */
  lemma UpdatePreservesSingleActive(rows: seq<Prompt>, k: nat, req: PromptUpdate)
    requires UniqueIds(rows) && k < |rows|
    requires AtMostOneActivePerType(rows)
    requires UpdateKeepsSingleActiveCase(rows, k, req)
    ensures AtMostOneActivePerType(UpdatedRows(rows, k, req))
  {
    UpdateEffect(rows, k, req);
    var out := UpdatedRows(rows, k, req);
    forall i, j | 0 <= i < j < |out| && out[i].isActive && out[j].isActive
      ensures out[i].ptype != out[j].ptype
    {
      if i != k && j != k {
        assert out[i].ptype == rows[i].ptype && out[j].ptype == rows[j].ptype;
        assert rows[i].isActive && rows[j].isActive;
      } else if req.isActive == Some(true) {
        var other := if i == k then j else i;
        assert !ActiveOfType(out[other], ActivationType(rows[k], req));
      } else {
        var other := if i == k then j else i;
        assert out[other] == rows[other] && rows[other].isActive;
        if out[k].ptype == rows[k].ptype {
          assert rows[k].isActive;
        }
      }
    }
  }

  /**
   * Outside that case an update always breaks the invariant: the row stays
   * active under a new type that already has another active row.
   */
  lemma UpdateOutsideCaseBreaksSingleActive(rows: seq<Prompt>, k: nat, req: PromptUpdate)
    requires UniqueIds(rows) && k < |rows|
    requires !UpdateKeepsSingleActiveCase(rows, k, req)
    ensures !AtMostOneActivePerType(UpdatedRows(rows, k, req))
  {
    UpdateEffect(rows, k, req);
    var out := UpdatedRows(rows, k, req);
    var i :| 0 <= i < |rows| && i != k && rows[i].isActive && rows[i].ptype == Patched(rows[k], req).ptype;
    assert out[i] == rows[i];
    if i < k {
      assert out[i].isActive && out[k].isActive && out[i].ptype == out[k].ptype;
    } else {
      assert out[k].isActive && out[i].isActive && out[k].ptype == out[i].ptype;
    }
  }

  /**
   * The type-change case breaks the invariant: moving an active prompt to a
   * type that already has an active prompt, without sending is_active=True,
   * leaves two active prompts of that type.
   */
  lemma UpdateTypeChangeBreaksSingleActive()
    ensures var rows := [Prompt(1, "A", "a", "x", "", 1, true), Prompt(2, "B", "b", "y", "", 1, true)];
      var req := PromptUpdate(None, None, Some("y"), None, None);
      && UniqueIds(rows) && AtMostOneActivePerType(rows) && UpdateValid(req)
      && !AtMostOneActivePerType(UpdatedRows(rows, 0, req))
  {
    var rows := [Prompt(1, "A", "a", "x", "", 1, true), Prompt(2, "B", "b", "y", "", 1, true)];
    var req := PromptUpdate(None, None, Some("y"), None, None);
    var out := UpdatedRows(rows, 0, req);
    assert out[0].isActive && out[1].isActive && out[0].ptype == out[1].ptype;
  }

  // ---------------------------------------------------------------- activate

  /** The rows after activating the row at position `k`. */
  function ActivatedRows(rows: seq<Prompt>, k: nat): seq<Prompt>
    requires k < |rows|
  {
    Deactivated(rows, rows[k].ptype, Some(rows[k].id))[k := rows[k].(isActive := true)]
  }

  /**
   * Activation leaves the target active and every other row of its type
   * inactive, changes no row of another type, and changes no column but
   * is_active.
   */
  lemma ActivateEffect(rows: seq<Prompt>, k: nat)
    requires UniqueIds(rows) && k < |rows|
    ensures |ActivatedRows(rows, k)| == |rows|
    ensures ActivatedRows(rows, k)[k] == rows[k].(isActive := true)
    ensures forall i :: 0 <= i < |rows| && i != k && rows[i].ptype == rows[k].ptype ==> !ActivatedRows(rows, k)[i].isActive
    ensures forall i :: 0 <= i < |rows| && rows[i].ptype != rows[k].ptype ==> ActivatedRows(rows, k)[i] == rows[i]
    ensures forall i :: 0 <= i < |rows| ==> ActivatedRows(rows, k)[i] == rows[i].(isActive := ActivatedRows(rows, k)[i].isActive)
  {
  }

  /** Activation keeps the one-active-per-type invariant. */
  lemma ActivatePreservesSingleActive(rows: seq<Prompt>, k: nat)
    requires UniqueIds(rows) && k < |rows|
    requires AtMostOneActivePerType(rows)
    ensures AtMostOneActivePerType(ActivatedRows(rows, k))
  {
    ActivateEffect(rows, k);
  }

  /** Activating the already active prompt of a valid table changes nothing. */
  lemma ActivateIdempotent(rows: seq<Prompt>, k: nat)
    requires UniqueIds(rows) && k < |rows|
    requires AtMostOneActivePerType(rows) && rows[k].isActive
    ensures ActivatedRows(rows, k) == rows
  {
    ActivateEffect(rows, k);
    var out := ActivatedRows(rows, k);
    forall i | 0 <= i < |rows|
      ensures out[i] == rows[i]
    {
      if i != k && rows[i].ptype == rows[k].ptype {
        assert !rows[i].isActive;
      }
    }
  }

  // ---------------------------------------------------------------- delete

  /** The rows after deleting the row at position `k`. */
  function RemovedRows(rows: seq<Prompt>, k: nat): seq<Prompt>
    requires k < |rows|
  {
    rows[..k] + rows[k + 1..]
  }

  /** Position `i` after deleting position `k`. */
  lemma RemovedAt(rows: seq<Prompt>, k: nat, i: nat)
    requires k < |rows| && i < |rows| - 1
    ensures |RemovedRows(rows, k)| == |rows| - 1
    ensures RemovedRows(rows, k)[i] == if i < k then rows[i] else rows[i + 1]
  {
  }

  /** Deletion removes exactly that row: one copy of it leaves the table and its id is gone. */
  lemma DeleteEffect(rows: seq<Prompt>, k: nat)
    requires UniqueIds(rows) && k < |rows|
    ensures multiset(RemovedRows(rows, k)) == multiset(rows) - multiset{rows[k]}
    ensures IndexOfId(RemovedRows(rows, k), rows[k].id).None?
  {
    assert rows == rows[..k] + [rows[k]] + rows[k + 1..];
    var out := RemovedRows(rows, k);
    forall j | 0 <= j < |out|
      ensures out[j].id != rows[k].id
    {
      RemovedAt(rows, k, j);
    }
  }

  /** Deletion keeps ids unique. */
  lemma DeleteKeepsUniqueIds(rows: seq<Prompt>, k: nat)
    requires UniqueIds(rows) && k < |rows|
    ensures UniqueIds(RemovedRows(rows, k))
  {
    var out := RemovedRows(rows, k);
    forall i, j | 0 <= i < j < |out|
      ensures out[i].id != out[j].id
    {
      RemovedAt(rows, k, i);
      RemovedAt(rows, k, j);
    }
  }

  /** Deletion keeps every title and type within its column width. */
  lemma DeleteKeepsColumnWidths(rows: seq<Prompt>, k: nat)
    requires RowsFitColumns(rows) && k < |rows|
    ensures RowsFitColumns(RemovedRows(rows, k))
  {
    forall i | 0 <= i < |rows| - 1
      ensures FitsColumns(RemovedRows(rows, k)[i])
    {
      RemovedAt(rows, k, i);
    }
  }

  /** Deletion keeps the one-active-per-type invariant. */
  lemma DeletePreservesSingleActive(rows: seq<Prompt>, k: nat)
    requires k < |rows| && AtMostOneActivePerType(rows)
    ensures AtMostOneActivePerType(RemovedRows(rows, k))
  {
    var out := RemovedRows(rows, k);
    forall i, j | 0 <= i < j < |out| && out[i].isActive && out[j].isActive
      ensures out[i].ptype != out[j].ptype
    {
      RemovedAt(rows, k, i);
      RemovedAt(rows, k, j);
    }
  }

  /** Deleting the only active prompt of a type leaves that type with no active prompt to look up. */
  lemma DeleteSoleActiveClearsLookup(rows: seq<Prompt>, k: nat)
    requires k < |rows| && AtMostOneActivePerType(rows) && rows[k].isActive
    ensures PromptsLoader.GetActivePrompt(PromptsLoader.Rows(RemovedRows(rows, k)), rows[k].ptype).None?
  {
    var out := RemovedRows(rows, k);
    forall j | 0 <= j < |out|
      ensures !ActiveOfType(out[j], rows[k].ptype)
    {
      RemovedAt(rows, k, j);
    }
  }

  // ---------------------------------------------------------------- list

  /** The list filters: `type == prompt_type` when a type is given, tag substring when a non-empty one is given. */
  predicate Matches(p: Prompt, typeFilter: Option<string>, tags: Option<string>) {
    && (typeFilter.Some? ==> p.ptype == typeFilter.value)
    && (tags.Some? && tags.value != "" ==> IsSubstring(tags.value, p.tags))
  }

  /** `needle` occurs in `hay` (`LIKE '%needle%'`). */
  predicate IsSubstring(needle: string, hay: string) {
    exists i :: 0 <= i <= |hay| && needle <= hay[i..]
  }

  /** The filtered rows, in storage order. */
  function Filtered(rows: seq<Prompt>, typeFilter: Option<string>, tags: Option<string>): (r: seq<Prompt>)
    ensures |r| <= |rows|
    ensures forall p :: p in r <==> p in rows && Matches(p, typeFilter, tags)
  {
    if rows == [] then []
    else (if Matches(rows[0], typeFilter, tags) then [rows[0]] else []) + Filtered(rows[1..], typeFilter, tags)
  }

  /** The filter keeps every matching row exactly as often as the table holds it, and no other row. */
  lemma {:induction false} FilteredCounts(rows: seq<Prompt>, typeFilter: Option<string>, tags: Option<string>)
    ensures forall p :: multiset(Filtered(rows, typeFilter, tags))[p]
                        == if Matches(p, typeFilter, tags) then multiset(rows)[p] else 0
  {
    if rows != [] {
      FilteredCounts(rows[1..], typeFilter, tags);
      assert rows == [rows[0]] + rows[1..];
    }
  }

  /** `offset((page - 1) * page_size)`; a negative offset counts as zero. */
  function PageOffset(page: int, pageSize: int): nat {
    if (page - 1) * pageSize < 0 then 0 else (page - 1) * pageSize
  }

  /** `offset(off).limit(limit)` over `s`; a negative limit means no limit. */
  function Window(s: seq<Prompt>, off: nat, limit: int): (w: seq<Prompt>)
    ensures |w| == (if off >= |s| then 0 else if limit < 0 || |s| - off <= limit then |s| - off else limit)
    ensures limit >= 0 ==> |w| <= limit
    ensures off <= |s| ==> w == s[off..off + |w|]
  {
    if off >= |s| then []
    else if limit < 0 || off + limit >= |s| then s[off..]
    else s[off..off + limit]
  }
}
