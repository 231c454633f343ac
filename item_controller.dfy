/**
 * `ItemController`: the handlers mounted on `/api/items`, over the flat
 * catalogue of `FileUtils`.
 */
module ItemController {
  import opened Wrappers
  import opened JsonValues
  import opened FileSystem
  import opened ItemSort
  import opened HttpReplies
  import FileUtils
  import FlatDirectory

  /** `GET /items`. */
  function GetAllItems(root: Node): Reply {
    ListingReply(FileUtils.AllItems(root))
  }

  /** `GET /items/:id`, where `raw` is the route parameter. */
  function GetItemById(root: Node, raw: string): Reply {
    match PositiveId(raw)
    case None => InvalidId
    case Some(id) => LookupReply(id, FileUtils.GetItemById(root, id))
  }

  /**
   * A listing answered with 200 carries every record of the catalogue, sorted
   * by `id` when every record has a number `id`.
   */
  lemma ListingReplySorted(root: Node)
    requires GetAllItems(root).status == 200
    ensures FileUtils.AllItems(root).Ok?
    ensures GetAllItems(root).body.fields["data"] == JArray(FileUtils.AllItems(root).value)
    ensures multiset(FileUtils.AllItems(root).value) == multiset(FlatDirectory.Listing(root).value)
    ensures AllNumericIds(FlatDirectory.Listing(root).value) ==> SortedById(FileUtils.AllItems(root).value)
  {
    ListingStatuses(FileUtils.AllItems(root));
    FileUtils.ListingSorted(root);
  }

  /** An identifier that is `NaN` or not positive is answered with 400 without looking at the catalogue. */
  lemma InvalidIdIgnoresCatalogue(root: Node, other: Node, raw: string)
    requires PositiveId(raw).None?
    ensures GetItemById(root, raw) == GetItemById(other, raw)
    ensures GetItemById(root, raw).status == 400
  {
  }

  /**
   * A 200 answer carries the record read from `<id>.json` for the number
   * `parseInt` made of the parameter; a record found this way is also in the listing.
   */
  lemma FoundRecordListed(root: Node, raw: string)
    requires GetItemById(root, raw).status == 200
    requires FileUtils.AllItems(root).Ok?
    ensures PositiveId(raw).Some?
    ensures GetItemById(root, raw).body.fields["data"] in FileUtils.AllItems(root).value
  {
    var id := PositiveId(raw).value;
    var outcome := FileUtils.GetItemById(root, id);
    LookupStatuses(id, outcome);
    FileUtils.LookupHitInListing(root, id, outcome.value.value);
  }
}
