# Prom.ua feed merger: collection, export tree and output writing

This project models the core of `main.py`, a batch job. It reads several
supplier XML catalogue feeds and keeps the offers that pass validation. It
merges them into one list of six-field records (`id`, `name`, `price`,
`quantity`, `categoryId`, `image`). It builds one Prom.ua `offers` XML tree
from that list and writes the tree to every configured output file.

Modules:

- `Wrappers`: the `Option` datatype.
- `Text`: Python's `str.strip()` over the characters `str.isspace()` accepts.
  `Strip` is characterised by the whitespace margins it removes.
- `Offers`: one raw offer and its validation.
  - A raw `<offer>` is its attribute map plus its direct children (tag and optional text).
  - `findtext` and the first `<picture>` are read from those children.
  - The per-offer part of `collect_all_valid_items` is the pure function `Validate`.
  - `Validate` returns `Crash`, `Rejected(reason)` or `Kept(record)`.
  - As in the source, `Validate` first reads and strips the values (`FieldsOf`, `ImageOf`); this is where a text-less picture crashes.
  - `Check` then runs the checks on those values in the source's order: id, `available == "true"`, name, price, categoryId.
- `Collection`: the feed and offer loops of `collect_all_valid_items`.
  - The loops are methods: `CollectAllValidItems`, with the inner loop in `CollectFromFeed`.
  - The inner loop receives the per-offer validation as a function value.
  - They are proved equal to the specification function `Collect`.
  - `Collect` is a left-to-right scan over the offers' verdicts.
  - `Collect` is related by lemmas to two independent definitions: the kept records in order, and the per-feed concatenation.
- `PromXml`: `build_prom_xml`, as a method that appends one `offer` element per record.
  - The result is the value `PromTree(items)`.
  - A strict reader `ReadOffers` makes the tree round-trip with the record list in both directions.
- `Outputs`: the decision and write loop of `update_all_outputs`.
  - The output files are a class whose `files` map the write loop updates in place.

The model follows `main.py` as written:

- Offers are not deduplicated (`DuplicatesAreKept`).
- The list is not split into chunks: every output file receives the same whole tree.
- The `available` test is the exact, case-sensitive comparison with `"true"` after stripping.
- An offer whose first `<picture>` has no text raises an exception. This aborts the whole run, and no output file is written.

## Model

| member | source | states |
|---|---|---|
| Text.Strip | main.py:54-60 | `strip()` result: it is no longer than `s`, neither starts nor ends with whitespace, and is empty exactly when `s` is all whitespace (`StripMargins` says what is removed) |
| Text.StripUnique | main.py:54-60 | any cut of whitespace margins that leaves a trimmed middle gives exactly the `strip()` result |
| Text.StripMargins | main.py:54-60 | `strip()` removes an all-whitespace prefix and an all-whitespace suffix and keeps everything between them |
| Text.StripIdempotent | main.py:54-60 | stripping an already stripped value changes nothing |
| Offers.AttribGet | main.py:54-55 | `attrib.get(key, default)`: the attribute's value, or the default when the offer has no such attribute |
| Offers.IdOf | main.py:54 | the stripped `id` attribute, `""` when it is missing |
| Offers.AvailabilityOf | main.py:55 | the stripped `available` attribute, `"true"` when it is missing |
| Offers.NameOf | main.py:57 | the stripped text of the first `name` child, `""` when there is none |
| Offers.PriceTextOf | main.py:58 | the stripped text of the first `price` child, `""` when there is none |
| Offers.CategoryOf | main.py:59 | the stripped text of the first `categoryId` child, `""` when there is none |
| Offers.QuantityOf | main.py:60 | the stripped text of the first `quantity` child, `"0"` when there is none |
| Offers.FieldsOf | main.py:54-60 | the five values read before any check, plus the quantity |
| Offers.PictureCrash | main.py:64-66 | the offer has a `picture` child and the first one has no text, so `.strip()` is called on `None` |
| Offers.CheckAt | main.py:69-88 | the `k`-th check in source order (id, available, name, price, categoryId) and its rejection reason, or none when it passes |
| Offers.FirstWithTag | main.py:57-60 | `find(tag)`: the index of the first direct child with that tag, or none exactly when no child has it |
| Offers.FindText | main.py:57-60 | `findtext(tag, default)`: the default when no child has the tag, otherwise the first such child's text (`""` when it has none) |
| Offers.ImageOf | main.py:63-66 | `image` is the stripped text of the first `picture` child, and `""` when there is no `picture` child |
| Offers.PriceCheck | main.py:78-85 | an unparsable price rejects as not-a-number; a parsed value below 0.01, above 99999999999999 or infinite rejects as out of range; NaN and in-range values pass |
| Offers.Check | main.py:69-97 | the checks never crash; they keep the values exactly when all five checks pass, and the record is made of the values read |
| Offers.RejectionIsFirstFailedCheck | main.py:69-88 | when check `k` is the first to fail, the values are rejected for check `k`'s reason |
| Offers.RejectionHasFirstFailedCheck | main.py:69-88 | every rejection is explained by a first failing check carrying the same reason |
| Offers.Validate | main.py:54-97 | an offer crashes exactly when its first picture has no text, and otherwise it is kept exactly when all five checks pass on its stripped values |
| Offers.KeptRecord | main.py:54-97 | a kept offer's record holds its stripped id, name, price text, quantity, categoryId and image, is well formed, and the offer's availability was exactly `"true"` |
| Offers.AvailableDefaultsToTrue | main.py:55 | a missing `available` attribute reads as `"true"` and passes the availability check |
| Offers.AvailabilityIsLiteral | main.py:72-74 | `available="True"` or `available="1"` is rejected as unavailable: the comparison is case-sensitive and literal |
| Offers.QuantityDefaultsToZero | main.py:60 | a missing `quantity` child gives the quantity `"0"` |
| Collection.OffersOf | main.py:47-50 | a loaded feed's offers, and none for a feed whose load returned `None` |
| Collection.AllOffers | main.py:44-50 | every offer the loops visit: the feeds in list order, each feed's offers in document order |
| Collection.Step | main.py:52-99 | one pass of the offer loop: a crash aborts, a rejection changes nothing, a kept offer appends its record |
| Collection.Scan | main.py:52-99 | the offer loop from an empty list, one step per verdict, left to right |
| Collection.Collect | main.py:42-102 | the outcome of `collect_all_valid_items`: the scan over the verdicts of all visited offers |
| Collection.KeptItemsAppend | main.py:52-99 | the records kept from two stretches of offers are the records of each, concatenated |
| Collection.AbortSticks | main.py:66 | once an offer has crashed the run, later offers cannot resume it |
| Collection.ScanMeaning | main.py:43-99 | the loop aborts exactly when some offer crashes, and otherwise returns the kept records in order |
| Collection.KeptItemsSelected | main.py:43-99 | the kept records are an order-preserving selection of the offers' verdicts |
| Collection.KeptItemsFrom | main.py:90-99 | every kept record is the record of some kept offer |
| Collection.FailedFeedContributesNothing | main.py:46-48 | a feed whose load returned `None` contributes nothing, and the feeds after it are still processed |
| Collection.CollectIsFeedConcatenation | main.py:44-99 | unless some offer crashes, the result is each feed's kept records, concatenated in feed order; a crash anywhere aborts |
| Collection.CrashesAreMissingPictures | main.py:63-66 | an offer's verdict is a crash exactly when its first picture has no text |
| Collection.KeptItemsValid | main.py:69-99 | every kept record is well formed and is the record of an offer that was kept |
| Collection.CollectedItemsAreValid | main.py:69-99 | every record of a completed run is well formed, comes from a kept input offer, and the records keep the offers' order |
| Collection.DuplicatesAreKept | main.py:90-99 | a feed holding the same offer twice aborts if the offer crashes, yields nothing if it is rejected, and yields two copies of its record if it is kept: nothing is deduplicated |
| Collection.CollectFromFeed | main.py:52-99 | the offer loop over one feed extends the run exactly as the scan over that feed's verdicts does |
| Collection.CollectAllValidItems | main.py:42-102 | the feed loop returns `Collect(feeds, parse)`, and every returned record is well formed |
| PromXml.OfferElements | main.py:106-114 | the `offer` elements of the records, appended one per record in order |
| PromXml.PromTree | main.py:105-115 | the `offers` root holding the records' `offer` elements |
| PromXml.OfferElement | main.py:108-114 | an `offer` element has six leaf children, tagged id, name, price, quantity, categoryId, image in that order, whose texts are the record's fields |
| PromXml.PromTreeShape | main.py:105-115 | the `offers` root has exactly one `offer` child per record, in the records' order |
| PromXml.BuildPromXml | main.py:105-115 | the loop builds `PromTree(items)`: one `offer` element per record, in order |
| PromXml.ReadItem | main.py:108-114 | the reader accepts exactly the elements shaped like an `offer` element and returns their six texts as the record's fields |
| PromXml.ReadOfferElement | main.py:108-114 | a record read back from its `offer` element is the record itself |
| PromXml.OfferElementOfRead | main.py:108-114 | an element that reads back as a record is that record's `offer` element |
| PromXml.ReadPromTree | main.py:105-115 | the export tree reads back as exactly the records it was built from |
| PromXml.PromTreeOfRead | main.py:105-115 | any tree that reads back as a record list is the export tree of that list |
| Outputs.OutputDirectory.SaveGzippedXml | main.py:118-121 | writing replaces the whole content of the named file and leaves the other files alone |
| Outputs.WriteAll | main.py:130-131 | the files after `tree` is written to each output name in turn |
| Outputs.WriteAllMeaning | main.py:130-131 | after the write loop, every output name holds the tree, every other file is unchanged, and no other file appears |
| Outputs.RepeatedNameWritesOnce | main.py:130-131 | listing the output names twice leaves the same files as listing them once |
| Outputs.UpdateAllOutputs | main.py:124-132 | after a crash no output file is written; with an empty record list no output file is written; otherwise the tree of all records is written to every output file in turn |
| Outputs.EveryOutputHoldsAllItems | main.py:128-131 | after the writes, every output file holds all collected records in order, and files that are not outputs keep their content |

## Left out

- `load_feed` (main.py:21-39) is not modelled: the HTTP request, status handling, the `raw_feed_<id>.xml` copy and the XML parsing. Each feed is an input `Option` of its offers. `None` stands only for the two paths on which `load_feed` returns `None`: a non-200 status and a `RequestException` (main.py:27-32).
- A load that raises is not modelled: an `ET.fromstring` parse error on a malformed or empty body (main.py:39), or an `OSError` writing `raw_feed_<id>.xml` (main.py:35-36). Neither is caught, so in the source such a load aborts the whole run, like the picture crash, and later feeds are never processed.
- The search for `offer` elements anywhere in the document (`findall(".//offer")`, main.py:50) is not modelled. Each loaded feed is the already extracted sequence of offers, in document order.
- Logging is not modelled (main.py:10-18 and every `logging` call). It has no effect on the result.
- Offers.PriceCheck: `float()` is a parameter `parse` that returns a `Float` (finite real, ±infinity or NaN) or `None` for a `ValueError`. Python's accepted spellings and IEEE-754 rounding are not modelled.
- Outputs.OutputDirectory.SaveGzippedXml: serialising the tree to UTF-8 bytes and gzip-compressing them are not modelled. A file is modelled as holding the tree written to it. Write failures are not modelled. The `raw_feed_<id>.xml` copies that `load_feed` writes (main.py:34-36) are not in `files`, so "the other files keep their content" speaks only of the modelled output files.
- PromXml.BuildPromXml: the ElementTree objects are values. The growing root is the local sequence of `offer` elements that the loop extends. Element identity and aliasing are not represented, and neither are attributes, which are always empty in this tree.
- Only the exception raised on a text-less first `<picture>` is modelled, as the `Crash` verdict. It ends the run with `Aborted` / `Crashed`. No other Python exception is modelled.
- The `__main__` block (main.py:134-139) and its feed and file lists are not modelled. They are inputs of `UpdateAllOutputs`.
