/**
 * The request and response shapes of backend/app/schemas/__init__.py:
 * the field bounds of PromptCreate and PromptUpdate as validator
 * predicates, their defaults, and the PromptList and
 * PromptActivateResponse records.
 */
module Schemas {
  import opened Wrappers
  import opened PromptModel

  const TitleMaxLength: nat := 255
  const TypeMaxLength: nat := 100

  /**
   * A create request. `tags` is optional and may be sent as null; `is_active`
   * defaults to false.
   */
  datatype PromptCreate = PromptCreate(
    title: string,
    content: string,
    ptype: string,
    tags: Option<string>,
    isActive: bool)

  /** A create request that gives only the required fields. */
  function PromptCreateWithDefaults(title: string, content: string, ptype: string): (c: PromptCreate)
    ensures c.title == title && c.content == content && c.ptype == ptype
    ensures c.tags == Some(DefaultTags) && c.isActive == DefaultIsActive
  {
    PromptCreate(title, content, ptype, Some(""), false)
  }

  /** The field constraints of PromptCreate. */
  predicate CreateValid(c: PromptCreate) {
    && 1 <= |c.title| <= TitleMaxLength
    && 1 <= |c.content|
    && 1 <= |c.ptype| <= TypeMaxLength
  }

  /** An update request; None stands for a field that was not sent. */
  datatype PromptUpdate = PromptUpdate(
    title: Option<string>,
    content: Option<string>,
    ptype: Option<string>,
    tags: Option<string>,
    isActive: Option<bool>)

  /** The field constraints of PromptUpdate: the create bounds on the fields that were sent; tags unbounded. */
  predicate UpdateValid(u: PromptUpdate) {
    && (u.title.Some? ==> 1 <= |u.title.value| <= TitleMaxLength)
    && (u.content.Some? ==> 1 <= |u.content.value|)
    && (u.ptype.Some? ==> 1 <= |u.ptype.value| <= TypeMaxLength)
  }

  /** A page of the listing; `total` counts the filtered rows, not the page. */
  datatype PromptList = PromptList(total: int, prompts: seq<Prompt>, page: int, pageSize: int)

  /** The reply of the activation endpoint. */
  datatype PromptActivateResponse = PromptActivateResponse(
    id: int,
    title: string,
    ptype: string,
    isActive: bool,
    message: string)

  /** A valid create request fits the title and type column widths. */
  lemma ValidCreateFitsColumns(c: PromptCreate)
    requires CreateValid(c)
    ensures |c.title| <= TitleWidth && |c.ptype| <= TypeWidth
  {
  }

  /** A valid update request fits the title and type column widths. */
  lemma ValidUpdateFitsColumns(u: PromptUpdate)
    requires UpdateValid(u)
    ensures u.title.Some? ==> |u.title.value| <= TitleWidth
    ensures u.ptype.Some? ==> |u.ptype.value| <= TypeWidth
  {
  }

  /** The tags of a valid create request are not bounded by the 500-character column width. */
  lemma ValidCreateMayExceedTagsWidth()
    ensures exists c :: CreateValid(c) && c.tags.Some? && |c.tags.value| > TagsWidth
  {
    var c := PromptCreate("t", "c", "y", Some(seq(TagsWidth + 1, _ => 'x')), false);
    assert CreateValid(c);
  }
}
