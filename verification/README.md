# bottlemail web service, modelled in Dafny

The web service of *bottlemail* is one PHP class, `WebService`. It stores
the messages that bottles exchange and serves them over HTTP:

- `GET bottles/<id>` answers with bottle information.
- `GET bottles/<id>/messages?limit=&offset=` lists a bottle's messages, newest first.
- `GET bottles/<id>/messages?del=<date>` lists the deletion candidates.
- `GET bottles/<id>/messages/<id>` answers with one message, and with its image when the extension is `.png`.
- `POST bottles/<id>/messages/<id>` stores one message.
- `POST bottles/<id>/messages` stores a batch all or nothing.
- `POST bottles/<id>/messages?del=<date>` completes the deletion of flagged messages.

An answer is JSON by default. The extension of the last path segment can
select HTML, plain text or XML instead.

The model is pure functions over immutable data:

| module | file | what it holds |
|---|---|---|
| `Wrappers` | wrappers.dfy | `Option` |
| `Decimal` | decimal.dfy | `intval` of strings (whitespace, sign, leading digits, 64-bit saturation), decimal text of integers, `strtolower` |
| `ResultTree` | result_tree.dfy | The PHP array as an ordered `(Key, Value)` sequence; `isset`, loose `== NULL`, the leaf text every serializer prints |
| `Request` | request.dfy | The constructor's path parsing (segments and extension) and the dispatch of `exec` |
| `Store` | store.dfy | The store as a map from `(bottleId, messageId)` to a row; the three SELECTs |
| `Shaping` | shaping.dfy | Rows turned into output arrays: bottle info, a message, a listing |
| `Mutations` | mutations.dfy | `insertSingleMessage`, the `insertMessages` fold with rollback, the `markMessagesAsDeleted` fold |
| `Formats` | formats.dfy | `generateResponseData`'s choice of serializer |
| `Markup` | markup.dfy | The XML and HTML serializers as element trees, each with a reader |
| `Plain` | plain.dfy | The plain-text serializer, exactly, as a string |
| `Service` | service.dfy | `exec` end to end: the response and the new state for one request |
| `Scenarios` | scenarios.dfy | Properties of requests in sequence |

The environment is an explicit `Oracle` value. It says:

- whether the database connection succeeds;
- whether statement preparation succeeds;
- which statements fail to bind or execute, by their position in the batch;
- which image writes fail;
- whether a stored file decodes as a PNG.

The request body is given already decoded from JSON. Image files are a map
from path to payload.

## Model

| member | source | states |
|---|---|---|
| `Decimal.Clamp` | webservice_v1/webservice.php:218 | `intval` saturates at the 64-bit bounds and leaves in-range values alone |
| `Decimal.IntValOfString` | webservice_v1/webservice.php:574 | `intval` of a string is a 64-bit value, and 0 for the empty string |
| `Decimal.IntToString` | webservice_v1/webservice.php:408 | An integer's decimal text is non-empty, starts with '-' exactly for negatives, and is digits otherwise |
| `Decimal.NatToString` | webservice_v1/webservice.php:408 | A natural's text is digits with no leading zero |
| `Decimal.IntToStringRoundTrip` | webservice_v1/webservice.php:423 | `intval` of an integer's decimal text gives the integer back: the URL text of an ID and the ID agree |
| `Decimal.CanonicalIntOfIntToString` | webservice_v1/webservice.php:423 | An integer's decimal text is recognised as the canonical spelling of exactly that integer |
| `Decimal.ToLower` | webservice_v1/webservice.php:617 | `strtolower` keeps the length and lowers each character |
| `Decimal.ToLowerIdempotent` | webservice_v1/webservice.php:617 | Lowering twice is lowering once |
| `ResultTree.Get` | webservice_v1/webservice.php:423 | A key's value is present exactly when the key is among the array's keys |
| `ResultTree.IntVal` | webservice_v1/webservice.php:574 | `intval` of any JSON value is a 64-bit value |
| `ResultTree.Erase` | webservice_v1/webservice.php:729 | What the text formats keep: same nesting and keys, every leaf its printed text |
| `Request.Explode` | webservice_v1/webservice.php:72 | `explode('/', s)` always yields at least one part |
| `Request.ExplodeSlash` | webservice_v1/webservice.php:72 | Exploding `x/y` is exploding `x` followed by exploding `y` |
| `Request.ExplodeJoin` | webservice_v1/webservice.php:72-74 | Exploding slash-free segments joined by '/' gives the segments back, with the suffix on the last one |
| `Request.IndexOf` | webservice_v1/webservice.php:77 | `strpos` finds the first occurrence, or none exactly when the character is absent |
| `Request.CutAt` | webservice_v1/webservice.php:78-81 | Cutting at the first `c` keeps a `c`-free prefix that ends right before that `c` |
| `Request.NonEmpty` | webservice_v1/webservice.php:94-98 | Dropping empty parts keeps exactly the non-empty parts: none is empty, and every non-empty part is among them |
| `Request.NonEmptyAppend` | webservice_v1/webservice.php:94-98 | Dropping empty parts works part by part, in order: an empty part vanishes and a non-empty one stays in its place |
| `Request.SplitLast` | webservice_v1/webservice.php:74-89 | The last part is cut at its first '?' and then at its first '.'; what is left has neither |
| `Request.SplitLastOfClean` | webservice_v1/webservice.php:74-89 | A clean last segment followed by `.ext` and `?query` splits back into the segment and `ext` |
| `Request.ParsePath` | webservice_v1/webservice.php:70-98 | Every remembered segment is non-empty |
| `Request.ParsePathOfJoin` | webservice_v1/webservice.php:70-98 | Parsing `/s0/.../sn.ext?query` gives back exactly the segments and the extension, provided every segment is non-empty without '/' and the last one also lacks '?' and '.' |
| `Request.ParsePartsSkipsEmpty` | webservice_v1/webservice.php:91-98 | An extra empty part among the raw parts changes neither the segments nor the extension |
| `Request.ParsePathIgnoresDoubleSlash` | webservice_v1/webservice.php:70-98 | A doubled slash anywhere in the path parses as a single one: `/bottles//42` is `/bottles/42` |
| `Request.SlashInQueryChangesShape` | webservice_v1/webservice.php:74-98 | Only the last part is cleaned, so a '/' inside the query string adds segments and turns a listing URL into a 404 |
| `Request.Route` | webservice_v1/webservice.php:111-190 | Each branch holds exactly when its condition does: 404 for an unaccepted shape; 405 with its Allow value for another method; for bottles/<b> GET the bottle info; for bottles/<b>/messages GET the listing, POST with a bad body 400, with `del` mark-deleted (carrying the body and the date) and without it the batch insert (carrying the body); for bottles/<b>/messages/<m> GET with a png extension the image, other GETs the message, POST the single insert. Every operation carries the URL's bottle, and the per-message ones the URL's message |
| `Store.MessageIds` | webservice_v1/webservice.php:201 | A bottle's message IDs are exactly the IDs stored under that bottle |
| `Store.Maximum` | webservice_v1/webservice.php:258 | The largest ID of a non-empty set is in the set and bounds it |
| `Store.Descending` | webservice_v1/webservice.php:258 | `Order By message_id Desc` lists every ID of the set once, strictly descending |
| `Store.Window` | webservice_v1/webservice.php:260 | `Limit offset, limit` has the right length and is the slice starting at `offset` |
| `Store.WindowOfDescending` | webservice_v1/webservice.php:258-260 | A window of a descending list is descending, drawn from it, and all of it when it starts at 0 and is wide enough |
| `Store.ListedIds` | webservice_v1/webservice.php:254-270 | The listing is descending and holds only the bottle's messages. Its length is exactly what `LIMIT offset, limit` leaves of them: 0 past the end, otherwise the smaller of `limit` and what remains. The i-th ID has exactly `offset + i` newer messages of the bottle, so it is the row at position `offset + i` of the newest-first order. With no window it holds them all |
| `Store.DescendingRank` | webservice_v1/webservice.php:258-260 | In a strictly descending list of a set's elements, the element at position k has exactly k larger elements in the set |
| `Store.DeleteCandidates` | webservice_v1/webservice.php:256 | An ID survives the filter exactly when its row is flagged or deleted since the date; the order is kept |
| `Store.DeletedIds` | webservice_v1/webservice.php:254-258 | The `del` listing is exactly the bottle's flagged or recently deleted messages, descending |
| `Store.BottleQuery` | webservice_v1/webservice.php:201-213 | The inner join counts the bottle's messages, and none for an unknown bottle; the name is NULL when there are none or when the bottle is unknown |
| `Shaping.Rank` | webservice_v1/webservice.php:285-313 | A key's position among the field names, or past the end when it is not one of them |
| `Shaping.Assemble` | webservice_v1/webservice.php:285-313 | Filling the present fields in order gives at most one entry per name |
| `Shaping.AssembleNames` | webservice_v1/webservice.php:285-313 | Only the fields' names appear as keys |
| `Shaping.AssembleInOrder` | webservice_v1/webservice.php:285-313 | With distinct names, the keys appear in the order the fields are assigned |
| `Shaping.AssembleAbsent` | webservice_v1/webservice.php:285-313 | A name that is not a field is never set |
| `Shaping.AssembleGet` | webservice_v1/webservice.php:285-313 | Each field's key reads back what its slot held, absent when the slot was empty |
| `Shaping.LookupAssemble` | webservice_v1/webservice.php:285-313 | Reading the assembled array by its names gives back exactly the slots |
| `Shaping.Shape` | webservice_v1/webservice.php:285-313 | IDs via `intval`; author, time and crc always present. A tombstone (flagged or deleted) shows `txt` "" with no title and no img. Title only when not loosely NULL; img URL only when a picture is recorded. `toBeDeleted` and `deleted` only in the `del` listing. Location only when both coordinates are set |
| `Shaping.Slots` | webservice_v1/webservice.php:285-313 | A message view has one slot per output field |
| `Shaping.ViewOf` | webservice_v1/webservice.php:361-384 | A client can read a message back exactly when btlID, msgID, txt, author, time and crc are present, and what it reads has the same slots |
| `Shaping.Record` | webservice_v1/webservice.php:361-384 | The message array is a record with unique keys in the order btlID, msgID, title, txt, img, author, time, toBeDeleted, deleted, location, crc |
| `Shaping.RecordFields` | webservice_v1/webservice.php:361-384 | Each field name reads back its slot from the array, and no other name is set |
| `Shaping.ReadRecordOfRecord` | webservice_v1/webservice.php:361-384 | Reading the message array back gives the message it was built from |
| `Shaping.ViewOfSlots` | webservice_v1/webservice.php:361-384 | Reassembling a view from its own slots gives the view back |
| `Shaping.Message` | webservice_v1/webservice.php:359-386 | A shaped message is a record with unique keys in field order |
| `Shaping.MessageFieldsDistinct` | webservice_v1/webservice.php:285-313 | The eleven output field names are distinct |
| `Shaping.RecordOfAssemble` | webservice_v1/webservice.php:285-313 | Assembling over distinct names gives a record with unique keys in order |
| `Shaping.ListingReadsBack` | webservice_v1/webservice.php:283-316 | Entry `i` of a listing sits under key `i` and reads back as the message shaped from row `ids[i]`, with msgID `ids[i]` |
| `Shaping.BottleTree` | webservice_v1/webservice.php:217-222 | The bottle answer is a record with unique keys, in the order id, name, nom, protocolVersionMajor, protocolVersionMinor |
| `Shaping.BottleTreeReadsBack` | webservice_v1/webservice.php:217-222 | Reading the bottle answer by the names id, name, nom, protocolVersionMajor, protocolVersionMinor gives `intval` of the URL ID, the name, the count and the two versions, none missing |
| `Mutations.Read` | webservice_v1/webservice.php:526-539 | An image is pending exactly when `img` is set; the title is NULL exactly when `title` is unset |
| `Mutations.RowOf` | webservice_v1/webservice.php:547-549 | A new row is neither flagged nor deleted, records a picture as 1 or 0, and keeps title, text and crc |
| `Mutations.InsertOne` | webservice_v1/webservice.php:524-561 | A new row is stored exactly when the statement executes on a fresh key. A duplicate is reported and changes no row. The image survives unless the statement failed after a picture was recorded |
| `Mutations.InsertOneFiles` | webservice_v1/webservice.php:537-554 | One insert touches no file but its own image path |
| `Mutations.InsertItems` | webservice_v1/webservice.php:469-481 | The loop stops, if at all, at a position inside the batch |
| `Mutations.InsertBatch` | webservice_v1/webservice.php:463-506 | On failure the rows are the pre-batch snapshot (the rollback); the files are as the loop left them |
| `Mutations.FreshCons` | webservice_v1/webservice.php:557-558 | Keys are fresh exactly when the first is unused and the rest are fresh once it is used |
| `Mutations.SucceedsCons` | webservice_v1/webservice.php:469-481 | A batch gets through exactly when its first item does and the rest get through on the grown store |
| `Mutations.InsertItemsStep` | webservice_v1/webservice.php:469-481 | A successful first item stores its row and hands on to the rest |
| `Mutations.InsertItemsSucceeds` | webservice_v1/webservice.php:469-482 | The loop reports no failure exactly when every item is valid, every statement executes and every key is new and distinct |
| `Mutations.InsertItemsCommits` | webservice_v1/webservice.php:491-495 | A batch that gets through adds exactly its keys, one new row per item |
| `Mutations.InsertItemsKeepsRows` | webservice_v1/webservice.php:491-493 | A batch that gets through changes no earlier row |
| `Mutations.InsertItemsRows` | webservice_v1/webservice.php:524-549 | After a batch that gets through, each item's key holds the row built from that item |
| `Mutations.InsertItemsReason` | webservice_v1/webservice.php:471-479 | The reported reason is the failing item's first unmet check: invalid item, then failed statement, otherwise duplicate |
| `Mutations.InsertItemsStopsAfter` | webservice_v1/webservice.php:469-481 | Every item before the failing one gets through |
| `Mutations.InsertItemsStopsAt` | webservice_v1/webservice.php:469-481 | The failing item does not get through |
| `Mutations.InsertItemsFiles` | webservice_v1/webservice.php:482-484 | Existing files stay. Every image an item wrote stays, except the failing item's own image when its statement failed. No other file appears |
| `Mutations.StoppedKeepsImage` | webservice_v1/webservice.php:482-484 | A stopped batch leaves an earlier item's image in place |
| `Mutations.InsertItemsUnlinks` | webservice_v1/webservice.php:551-554 | The failing item's image is removed when its statement failed after a picture was recorded |
| `Mutations.MarkOne` | webservice_v1/webservice.php:571-576 | One update keeps every key |
| `Mutations.MarkItems` | webservice_v1/webservice.php:573-581 | The update loop keeps every key |
| `Mutations.MarkDeleted` | webservice_v1/webservice.php:569-595 | The mark-deleted batch keeps every key |
| `Mutations.Completed` | webservice_v1/webservice.php:571 | The reference completion keeps every key |
| `Mutations.IdSetCons` | webservice_v1/webservice.php:573-574 | The named IDs are the first one's and the rest's |
| `Mutations.MarkOneThenCompleted` | webservice_v1/webservice.php:571-576 | One update followed by a completion completes both |
| `Mutations.CompletedNone` | webservice_v1/webservice.php:573 | Completing no IDs changes nothing |
| `Mutations.MarkItemsCompletes` | webservice_v1/webservice.php:573-581 | The loop fails exactly when some statement fails. Otherwise its rows are the reference completion of the named IDs, whatever the order or repetitions |
| `Mutations.MarkDeletedCompletes` | webservice_v1/webservice.php:569-595 | All or nothing: every statement executes and the named flagged rows are completed, or there is no change |
| `Mutations.CompletedIdempotent` | webservice_v1/webservice.php:571 | Completing twice with the same IDs and date is completing once |
| `Mutations.CompletedNoMatch` | webservice_v1/webservice.php:576-577 | Matching no flagged row changes nothing, and is not an error |
| `Mutations.CompletedRows` | webservice_v1/webservice.php:571 | Only named flagged rows change: they become unflagged with the date; all other columns stay |
| `Mutations.CompletionCrossesBottles` | webservice_v1/webservice.php:571 | There is no bottle filter: a flagged message with the named ID is completed in every bottle |
| `Formats.SelectFormat` | webservice_v1/webservice.php:611-636 | No extension gives JSON. Lower-cased `htm`/`html` gives HTML, `txt` plain text, `xml` XML, anything else JSON |
| `Formats.SelectFormatIgnoresCase` | webservice_v1/webservice.php:617 | Extensions equal up to case select the same format |
| `Formats.SelectFormatOfLower` | webservice_v1/webservice.php:617 | An extension selects what its lower-case spelling selects |
| `Formats.EmptyExtensionIsJson` | webservice_v1/webservice.php:612 | The empty extension is loosely NULL, so it answers JSON like no extension |
| `Formats.UpperCaseExtensions` | webservice_v1/webservice.php:617-633 | `HTML`, `Txt` and `XML` are recognised; `JSON` falls to the default |
| `Markup.XmlTag` | webservice_v1/webservice.php:723 | A string key is its own tag. Other keys give `entry` exactly for scalars and `message` exactly for arrays with `msgID` set; otherwise `bottle` |
| `Markup.XmlContent` | webservice_v1/webservice.php:725-731 | An array gives one child per entry; a scalar gives one CDATA section of its text |
| `Markup.XmlEntry` | webservice_v1/webservice.php:721-731 | Each entry becomes an element tagged as `XmlTag` says |
| `Markup.XmlEntries` | webservice_v1/webservice.php:721-732 | One element per entry, in order, with its tag |
| `Markup.ToXml` | webservice_v1/webservice.php:699-711 | The document is an `xml` root with one child per output entry |
| `Markup.XmlRoundTrip` | webservice_v1/webservice.php:719-734 | Reading the XML back gives the erased tree for every readable value |
| `Markup.XmlEntryRoundTrip` | webservice_v1/webservice.php:721-731 | Reading one entry's element back gives its erased value |
| `Markup.XmlListRoundTrip` | webservice_v1/webservice.php:723 | A list's `entry`/`message`/`bottle` children read back as the list with its positions |
| `Markup.XmlRecordRoundTrip` | webservice_v1/webservice.php:723 | A record whose keys are not list tags reads back as the record |
| `Markup.XmlRecordEntries` | webservice_v1/webservice.php:721-731 | A record's elements read back as its erased entries |
| `Markup.ToXmlRoundTrip` | webservice_v1/webservice.php:699-734 | Reading the whole document back gives the erased output |
| `Markup.ListTag` | webservice_v1/webservice.php:676 | A list element is `ol` or `ul` |
| `Markup.ListTagOfListOrRecord` | webservice_v1/webservice.php:676 | A non-empty list is `ol` exactly when its first value is not NULL; a record is `ul` |
| `Markup.HtmlList` | webservice_v1/webservice.php:674-694 | An array becomes its list element with one item per entry |
| `Markup.HtmlBody` | webservice_v1/webservice.php:685-692 | An item's body is one node: the nested list, or a CDATA section of the leaf's text |
| `Markup.HtmlItems` | webservice_v1/webservice.php:678-693 | One `li` per entry, in order |
| `Markup.ReadLabelOf` | webservice_v1/webservice.php:681-684 | A label reads back as its key, and an unlabelled item reads as having none |
| `Markup.HtmlRoundTrip` | webservice_v1/webservice.php:674-694 | For lists and records, reading the HTML back gives the erased tree |
| `Markup.HtmlItemRoundTrip` | webservice_v1/webservice.php:680-692 | One item reads back as its erased entry, given its position |
| `Markup.HtmlItemsRoundTrip` | webservice_v1/webservice.php:678-693 | The items read back as the erased entries |
| `Markup.ToHtmlRoundTrip` | webservice_v1/webservice.php:651-694 | Reading the whole document back gives the erased output |
| `Plain.Spaces` | webservice_v1/webservice.php:752-755 | The indent is `n` spaces |
| `Plain.PlainEntry` | webservice_v1/webservice.php:757-768 | Each entry's text starts with indent, key and ": ", and ends with a line break |
| `Plain.PlainEntriesAppend` | webservice_v1/webservice.php:757-768 | The text of consecutive entries is the text of each in turn |
| `Plain.PlainEntriesEmpty` | webservice_v1/webservice.php:757-768 | Only the empty array prints nothing |
| `Plain.PlainOfErase` | webservice_v1/webservice.php:759-765 | Plain text depends only on keys, nesting and leaf texts |
| `Plain.PlainEntriesOfErase` | webservice_v1/webservice.php:757-768 | The same, for a sequence of entries |
| `Plain.PlainEntryOfErase` | webservice_v1/webservice.php:759-767 | The same, for one entry |
| `Plain.PlainEntryIndented` | webservice_v1/webservice.php:751-768 | With no line break in keys and leaf texts, every line of an entry printed at indent `n` starts with `n` spaces; a leaf fills one line; a nested array starts on the next line and each of its lines is indented by `n` plus the width of `key: ` |
| `Plain.PlainEntriesIndented` | webservice_v1/webservice.php:757-768 | The same for the entries of one array at one indent |
| `Plain.LineBreakBreaksIndent` | webservice_v1/webservice.php:759-765 | A line break inside a value is echoed as is, so the text after it starts an unindented line |
| `Service.Render` | webservice_v1/webservice.php:611-636 | The body's kind is exactly the selected format; JSON carries the output tree itself |
| `Service.RenderRecoverable` | webservice_v1/webservice.php:641-734 | For an output whose every array is a list or a record (`ListsAndRecords`), the client gets it back whatever the format: the tree itself from JSON, the erased tree from HTML and from readable XML |
| `Service.BottleInfoOp` | webservice_v1/webservice.php:199-236 | 503 without a statement, 400 when it fails. 204 exactly when the bottle is unknown, has no messages or has a loosely NULL name; otherwise 200 with the bottle answer |
| `Service.ListOp` | webservice_v1/webservice.php:244-334 | 400 without `limit` and `del`, 503 without a statement, 400 when the statement fails or offset or limit is negative. Otherwise 204 exactly when the statement selects no row (the `del` candidates, or the window of the bottle's messages) and 200 exactly when it selects some, with the listing of exactly those rows as body |
| `Service.MessageOp` | webservice_v1/webservice.php:341-398 | 204 exactly when nothing is stored under the two IDs; otherwise 200 with the shaped message |
| `Service.ImageOp` | webservice_v1/webservice.php:776-791 | 200 with the stored file exactly when it exists at the conventional path and decodes; otherwise 404 |
| `Service.InsertSingleOp` | webservice_v1/webservice.php:420-452 | 400 for a body without the mandatory fields or with other IDs, 503 without a statement. 201 exactly when it executes on a new key, with the message URL as Location and exactly one row added. Otherwise no row changes |
| `Service.InsertBatchOp` | webservice_v1/webservice.php:463-506 | 201 exactly when every item gets through, with the item count in the Location; otherwise no row changes |
| `Service.MarkDeletedOp` | webservice_v1/webservice.php:569-605 | 204 exactly when every update executes, with the named flagged rows completed; otherwise nothing changes |
| `Service.Exec` | webservice_v1/webservice.php:109-190 | An unaccepted path is 404 and a failed connection 503, both changing nothing. 405 exactly for a method the shape does not accept, with the Allow value. Bottles never change. Otherwise the shape and method pick the handler, with the bottle and message IDs taken from segments 1 and 3: GET bottles/b answers as the bottle-info handler and GET bottles/b/messages as the listing. A POST there with a body that is not a non-empty array is 400; otherwise it is the batch insert, or the deletion of the body's IDs with `del`. GET bottles/b/messages/m is the image handler for `.png` and the message handler otherwise, and a POST there is the single insert |
| `Request.MessagePathParses` | webservice_v1/webservice.php:70-98 | `/bottles/<b>/messages/<m>` with clean IDs parses into exactly those four segments and no extension |
| `Service.Perform` | webservice_v1/webservice.php:132-190 | Reads change nothing; no operation answers 405 (which handler runs for which request is stated at `Service.Exec`) |
| `Scenarios.IdMatchesIntVal` | webservice_v1/webservice.php:423 | A body ID equal to a URL segment reads, through `intval`, as the segment reads |
| `Scenarios.ReadUnderUrl` | webservice_v1/webservice.php:526-539 | An accepted body is stored under the URL's IDs, its image under the URL's image path |
| `Scenarios.InsertThenGet` | webservice_v1/webservice.php:420-452 | After a 201 from the single insert, the message handler for the same bottle and message IDs answers 200 with the row that was written, text shown |
| `Scenarios.PostThenGet` | webservice_v1/webservice.php:109-190 | A POST of a valid message to `/bottles/<b>/messages/<m>` answers 201 with the message URL when the connection, the statement and its execution succeed and the key is free. A GET of that same path then answers 200 with the stored message, whatever the queries, and the GET changes nothing |
| `Scenarios.PostIsInsert` | webservice_v1/webservice.php:170-185 | Once connected, a POST to `/bottles/<b>/messages/<m>` runs the single insert with IDs b and m |
| `Scenarios.GetIsRead` | webservice_v1/webservice.php:170-181 | Once connected, a GET of `/bottles/<b>/messages/<m>` with no extension runs the message read with IDs b and m |
| `Scenarios.InsertThenFetchImage` | webservice_v1/webservice.php:537-545 | After a 201 with an image written, the image URL serves that image |
| `Scenarios.DuplicateInsert` | webservice_v1/webservice.php:557-558 | Posting onto a taken key answers 400 and keeps the stored row |
| `Scenarios.InsertTwice` | webservice_v1/webservice.php:430-442 | The same POST twice: 201, then 400 with the first row kept |
| `Scenarios.BatchCommitsAll` | webservice_v1/webservice.php:491-495 | A committed batch adds exactly its keys, each with its item's row, and keeps every earlier row |
| `Scenarios.RollbackKeepsEarlierImages` | webservice_v1/webservice.php:482-486 | A rolled-back batch answers 400 with the rows as before, but an earlier item's image stays on disk |
| `Scenarios.UnservedPath` | webservice_v1/webservice.php:111-116 | An unaccepted path is 404 whatever the method, body or environment, and changes nothing |
| `Scenarios.GetChangesNothing` | webservice_v1/webservice.php:132-181 | A GET never changes the state |
| `Scenarios.BottleInfoAnswer` | webservice_v1/webservice.php:199-224 | A 200 for bottles/<b> in JSON reads back as the bottle's row: its ID, its name, its number of messages and its versions; the bottle is known, has messages and a name that is not loosely NULL |
| `Scenarios.JsonListingReadsBack` | webservice_v1/webservice.php:283-316 | A listing answered in JSON has one entry per ID, and entry `i` reads back with msgID `ids[i]` |
| `Scenarios.ListAnswer` | webservice_v1/webservice.php:254-318 | A 200 listing in JSON has one entry per selected row, in order, and entry `i` reads back with msgID the `i`-th selected ID |

## Behaviour worth knowing

These are what the code does, and the model follows it:

- **Images after a rollback.** An all-or-nothing batch might be expected to also remove the image files written by its earlier items. The code removes only the failing item's own image, and only when its statement failed (lines 551-554). See `Mutations.InsertItemsFiles` and `Scenarios.RollbackKeepsEarlierImages`.
- **HTML list tags.** A list is not always an ordered list. The code writes `ol` only when index 0 is `isset`, so a list whose first value is NULL prints as `ul` (line 676). See `Markup.ListTagOfListOrRecord`.
- **Duplicate keys leave the image.** A duplicate key does not remove the image just written (lines 557-558).
- **No bottle filter in mark-deleted.** The update has no bottle filter (line 571). See `Mutations.CompletionCrossesBottles`.
- **Line breaks in plain text.** A key or value holding a line break is echoed as is, so the text after the break starts a line with no indent (line 765). The indentation holds only for one-line keys and values. See `Plain.LineBreakBreaksIndent` and `Plain.PlainEntryIndented`.
- **Zero-row updates.** An update that matches no row is not an error (line 577). See `Mutations.CompletedNoMatch`.

## Left out

- Reading the request body, `parse_ini_file`, `header()`, `echo` of debug text, `exit`, and the `$_SERVER`/`$_GET` globals. The host, method, path (with the base URL removed) and query values are parameters.
- The database. mysqli, SQL text and `bind_param` are replaced by the oracle (prepare and connect as booleans, bind/execute failures by statement position) and by a map of rows. Transactions are the snapshot kept by the batch folds.
- `json_decode`/`json_encode`, `base64_decode` and PNG decoding/encoding. The body is a decoded tree; the image payload is stored as given, and decoding is the oracle's `pngOk`.
- DOMDocument pretty-printing and escaping. HTML and XML are element trees, not bytes.
- An XML tag name that DOMDocument would refuse (a key that is not a valid element name) is not modelled.
- Longitude and latitude are opaque values, not floats.
- A negative `offset` or `limit` is treated as a failing statement (400). MySQL's own handling of such values is not modelled.
- The `del` date comparison is textual, which orders ISO dates correctly. Other date formats are not interpreted.
- Service.InsertSingleOp: the ID equality `!=` at line 423 is modelled textually. An integer matches its decimal text and a string matches itself. PHP's numeric-string loose equality (`"042" == 42`) is not modelled.
- Mutations.ReadBatch: the same textual ID equality, for the batch check at line 471.
- Scenarios.InsertThenGet: assumes the body's integer IDs fit in 64 bits, as `json_decode` delivers them.
- Scenarios.PostThenGet: assumes the same 64-bit IDs, and IDs without '/', '?' or '.' so that the path holds them as single segments.
- Scenarios.InsertThenFetchImage: the same 64-bit assumption.
- Scenarios.ListAnswer: assumes the stored message IDs fit in 64 bits, as the integer column holds them.
- `intval` of exponent forms (`"1e3"`) is not modelled.
- Plain.PlainEntry: the nested indent counts the key's characters, not its UTF-8 bytes as `strlen` does.
- There is no reader for the plain-text format: plain text is ambiguous (a key or value may contain ": " or a line break), so no round trip holds.
- XML round trips need records whose keys are not `entry`, `message` or `bottle`, because such keys are indistinguishable from list positions.
- The undefined `$ulElement` returned at line 733 is never used, so it is left out.
- No concurrency: each request is one sequential call.
