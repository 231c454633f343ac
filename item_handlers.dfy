/**
 * The stand-alone item handlers `getItemById` and `getAllItems`, over the
 * flat catalogue of `DbFileUtils`.
 */
module ItemHandlers {
  import opened Wrappers
  import opened JsonValues
  import opened FileSystem
  import opened HttpReplies
  import DbFileUtils
  import FlatDirectory
  import JsText
  import ItemController

  /** `req.params.id || '0'`: a missing or empty parameter reads as `'0'`. */
  function RawId(param: Option<string>): string {
    if param.None? || param.value == "" then "0" else param.value
  }

  /** `getItemById`. */
  function GetItemById(root: Node, param: Option<string>): Reply {
    match PositiveId(RawId(param))
    case None => InvalidId
    case Some(id) => LookupReply(id, DbFileUtils.GetItemById(root, id))
  }

  /** `getAllItems`. */
  function GetAllItems(root: Node): Reply {
    ListingReply(DbFileUtils.AllItems(root))
  }

  /** A missing or empty parameter is answered with 400, whatever the catalogue holds. */
  lemma MissingIdRejected(root: Node)
    ensures GetItemById(root, None) == InvalidId && GetItemById(root, Some("")) == InvalidId
  {
    NonPositiveIdRejected(0);
    assert JsText.IntToString(0) == "0";
  }

  /** An identifier that is `NaN` or not positive is answered with 400 without looking at the catalogue. */
  lemma InvalidIdIgnoresCatalogue(root: Node, other: Node, param: Option<string>)
    requires PositiveId(RawId(param)).None?
    ensures GetItemById(root, param) == GetItemById(other, param) == InvalidId
  {
  }

  /**
   * Any other answer comes from looking up a positive identifier: the one
   * `parseInt` made of the parameter.
   */
  lemma LookupOnlyPositive(root: Node, param: Option<string>)
    requires GetItemById(root, param) != InvalidId
    ensures PositiveId(RawId(param)).Some? && PositiveId(RawId(param)).value > 0
    ensures var id := PositiveId(RawId(param)).value;
      GetItemById(root, param) == LookupReply(id, DbFileUtils.GetItemById(root, id))
  {
  }

  /** 404 exactly when `<id>.json` is missing or holds a falsy value. */
  lemma NotFoundMeansNoFile(root: Node, param: Option<string>)
    requires PositiveId(RawId(param)).Some?
    ensures var id := PositiveId(RawId(param)).value;
      GetItemById(root, param).status == 404 <==>
        || Resolve(root, FlatDirectory.ItemPath(id)) == Err(ENOENT)
        || (DbFileUtils.GetItemById(root, id).Ok? && DbFileUtils.GetItemById(root, id).value.Some?
            && Falsy(DbFileUtils.GetItemById(root, id).value.value))
  {
    var id := PositiveId(RawId(param)).value;
    LookupStatuses(id, DbFileUtils.GetItemById(root, id));
    DbFileUtils.ExistsMatchesLookup(root, id);
  }

  /** The two listing handlers answer alike: the backends they call agree. */
  lemma ListingHandlersAgree(root: Node)
    ensures GetAllItems(root) == ItemController.GetAllItems(root)
  {
    DbFileUtils.ListingsAgree(root);
  }

  /** The two lookup handlers answer alike on the same non-empty parameter. */
  lemma LookupHandlersAgree(root: Node, raw: string)
    requires raw != ""
    ensures GetItemById(root, Some(raw)) == ItemController.GetItemById(root, raw)
  {
    if PositiveId(raw).Some? {
      DbFileUtils.LookupsAgree(root, PositiveId(raw).value);
    }
  }
}
