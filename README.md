# Segment × group percentage discounts, modelled in Dafny

The discount function of this app looks up a buyer's segment and a product's
group in a merchant-configured two-level percentage table (the "matrix") and
emits one percentage-discount candidate per eligible cart line. This project
models its two run functions and the key normaliser they use:

- `normalizeKey` (module `KeyNormalizer`): trim, upper-case, collapse each
  whitespace run into one `_`, then drop every character outside
  `A-Z`, `0-9`, `_` and `-`. Each stage is its own function. JavaScript's
  whitespace set and `trim` are in `JsText`.
- `cartLinesDiscountsGenerateRun` (module `CartLinesDiscounts`). It is
  specified step by step by the function `Evaluate`. The method
  `CartLinesDiscountsGenerateRun` does the same work the way the source does:
  - early returns;
  - a loop that fills the normalised matrix, a later key overwriting an
    earlier one;
  - a loop that pushes candidates, with `continue` for skipped lines.

  The method is proved to return `Evaluate(input, host)`.
- `cartDeliveryOptionsDiscountsGenerateRun` (module `CartDeliveryDiscounts`):
  two guards, then an empty operation list on every path.

The values the evaluator handles are in `JsValue`:

- what `JSON.parse` returns;
- `Object.entries` on objects, arrays and strings;
- own-property lookup `v[key]`, including an array's `length` and index names;
- the `Number(...)` and `String(...)` coercions.

Three engine routines have no definition here: `JSON.parse`, the string → number
grammar, and the number → string rendering. They are the fields of a `Host`
value, and every property is proved for every host.

`Selection` holds two generic loop shapes. `FilterMap`/`Picked` keep what a
per-item decision yields, in order. `Rekeyed` inserts pairs into a map under a
key function, so the last write wins. `Examples` works through small
scenarios, such as a `"vip"` buyer with `{"VIP": {"Spices": 10}}`.

The cart's group is only trimmed before the lookup; it is not normalised. The
matrix's top-level keys are normalised, but the keys inside a row are not. The
model keeps this asymmetry: `CartLinesDiscounts.GroupMatchedVerbatim` states it.

The evaluator is not total: a matrix blob that parses to `null` makes
`Object.entries` throw (cart_lines_discounts_generate_run.js:33). The model
states that case as a precondition, `EntriesDefined`.

## Model

| member | source | states |
|---|---|---|
| JsText.TrimStart | extensions/discount-function/src/cart_lines_discounts_generate_run.js:78 | drops leading whitespace only: the result starts with a non-whitespace character or is empty, and it is shorter whenever the text starts with whitespace |
| JsText.TrimEnd | extensions/discount-function/src/cart_lines_discounts_generate_run.js:78 | drops trailing whitespace only: the result ends with a non-whitespace character or is empty, and keeps the first character |
| JsText.TrimStartSlice | extensions/discount-function/src/cart_lines_discounts_generate_run.js:78 | what `TrimStart` removes is a whitespace prefix, and the rest is kept as it was |
| JsText.TrimEndSlice | extensions/discount-function/src/cart_lines_discounts_generate_run.js:78 | what `TrimEnd` removes is a whitespace suffix, and the rest is kept as it was |
| JsText.Trim | extensions/discount-function/src/cart_lines_discounts_generate_run.js:78 | `trim` leaves no whitespace at either end and never lengthens the text |
| JsText.TrimIsSlice | extensions/discount-function/src/cart_lines_discounts_generate_run.js:78 | `trim` removes only a whitespace prefix and a whitespace suffix: the result is the middle slice of the input |
| JsText.TrimIdentity | extensions/discount-function/src/cart_lines_discounts_generate_run.js:49 | text with no whitespace at either end trims to itself |
| JsText.TrimBlank | extensions/discount-function/src/cart_lines_discounts_generate_run.js:49-50 | blank text trims to the empty string, so a blank group is skipped |
| JsText.TrimStartAppend | extensions/discount-function/src/cart_lines_discounts_generate_run.js:78 | leading whitespace of `a + b` reaches into `b` exactly when `a` is blank |
| JsText.TrimEndAppend | extensions/discount-function/src/cart_lines_discounts_generate_run.js:78 | trailing whitespace of `a + b` reaches into `a` exactly when `b` is blank |
| JsText.TrimPadding | extensions/discount-function/src/cart_lines_discounts_generate_run.js:49 | whitespace added before or after text is all that `trim` takes off again |
| KeyNormalizer.UpperChar | extensions/discount-function/src/cart_lines_discounts_generate_run.js:79 | `a`-`z` map to `A`-`Z`; every other character, whitespace included, is unchanged |
| KeyNormalizer.ToUpper | extensions/discount-function/src/cart_lines_discounts_generate_run.js:79 | upper-casing keeps the length and maps each character on its own |
| KeyNormalizer.CollapseWhitespace | extensions/discount-function/src/cart_lines_discounts_generate_run.js:80 | after `replace(/\s+/g, "_")` no whitespace is left |
| KeyNormalizer.StripDisallowed | extensions/discount-function/src/cart_lines_discounts_generate_run.js:81 | after `replace(/[^A-Z0-9_\-]/g, "")` only key characters remain, and the text is no longer |
| KeyNormalizer.StripChar | extensions/discount-function/src/cart_lines_discounts_generate_run.js:81 | a single character is kept exactly when it is a key character |
| KeyNormalizer.StripAppend | extensions/discount-function/src/cart_lines_discounts_generate_run.js:81 | stripping `a + b` strips `a` and `b` apart and joins them, so the input's key characters survive in order |
| KeyNormalizer.NormalizeKey | extensions/discount-function/src/cart_lines_discounts_generate_run.js:76-82 | the key holds only `A-Z`, `0-9`, `_` and `-`, so it holds no whitespace |
| KeyNormalizer.CollapseIdentity | extensions/discount-function/src/cart_lines_discounts_generate_run.js:80 | text without whitespace is unchanged by the run-collapsing stage |
| KeyNormalizer.StripIdentity | extensions/discount-function/src/cart_lines_discounts_generate_run.js:81 | text made of key characters is unchanged by the stripping stage |
| KeyNormalizer.NormalizeKeyFixed | extensions/discount-function/src/cart_lines_discounts_generate_run.js:76-82 | any text made of key characters is its own key |
| KeyNormalizer.NormalizeKeyIdempotent | extensions/discount-function/src/cart_lines_discounts_generate_run.js:76-82 | normalising a key again changes nothing |
| KeyNormalizer.NormalizeBlank | extensions/discount-function/src/cart_lines_discounts_generate_run.js:19-22 | a missing or blank segment (the empty-string default included) gives the empty key |
| KeyNormalizer.TrimUpper | extensions/discount-function/src/cart_lines_discounts_generate_run.js:78-79 | trimming and upper-casing commute |
| KeyNormalizer.NormalizeKeyCaseInsensitive | extensions/discount-function/src/cart_lines_discounts_generate_run.js:76-82 | labels that differ only in letter case give the same key |
| KeyNormalizer.CollapseRun | extensions/discount-function/src/cart_lines_discounts_generate_run.js:80 | the collapsing stage gives the same result whatever non-empty whitespace run stands at a given place |
| KeyNormalizer.NormalizeKeyWhitespaceRun | extensions/discount-function/src/cart_lines_discounts_generate_run.js:76-82 | swapping one whitespace run for any other non-empty run anywhere in a label leaves its key unchanged |
| KeyNormalizer.NormalizeKeyPadding | extensions/discount-function/src/cart_lines_discounts_generate_run.js:76-82 | whitespace added before or after a label leaves its key unchanged |
| KeyNormalizer.CollapseJoin | extensions/discount-function/src/cart_lines_discounts_generate_run.js:80 | between two words, a whitespace run becomes exactly one `_` |
| KeyNormalizer.WordKey | extensions/discount-function/src/cart_lines_discounts_generate_run.js:76-82 | a padded single word keys to the word upper-cased |
| KeyNormalizer.TwoWordKey | extensions/discount-function/src/cart_lines_discounts_generate_run.js:76-82 | two padded words with any whitespace run between them key to `WORD1_WORD2` |
| JsValue.NatToString | extensions/discount-function/src/cart_lines_discounts_generate_run.js:33 | an array index is named by non-empty decimal digits with no leading zero |
| JsValue.NatToStringValue | extensions/discount-function/src/cart_lines_discounts_generate_run.js:33 | an index's name reads back as that index |
| JsValue.NatToStringInjective | extensions/discount-function/src/cart_lines_discounts_generate_run.js:52 | two indices with the same name are the same index |
| JsValue.LookupIndex | extensions/discount-function/src/cart_lines_discounts_generate_run.js:52 | looking up an array by an index's name gives exactly that element |
| JsValue.JsToString | extensions/discount-function/src/cart_lines_discounts_generate_run.js:52 | `String(v)` as `Number(v)` uses it, for an object without an own `toString` property: a string is itself, a number is the engine's rendering, an object is `"[object Object]"`, `[]` is `""` and a one-element array reads as its element (`null` as `""`) |
| JsValue.Entries | extensions/discount-function/src/cart_lines_discounts_generate_run.js:33 | `Object.entries`: an object's own properties; an array's or a string's index/element pairs; nothing for a number or a boolean |
| JsValue.IndexedEntries | extensions/discount-function/src/cart_lines_discounts_generate_run.js:33 | the i-th entry of an array is its i-th element under i's decimal name |
| JsValue.Characters | extensions/discount-function/src/cart_lines_discounts_generate_run.js:33 | a string's elements are its one-character strings |
| JsValue.LookupProp | extensions/discount-function/src/cart_lines_discounts_generate_run.js:52 | `undefined` exactly when no own property has the name; otherwise the value of the last property with that name |
| JsValue.IndexNamed | extensions/discount-function/src/cart_lines_discounts_generate_run.js:52 | finds the in-range index whose decimal name is the key, or shows that none has it |
| JsValue.Lookup | extensions/discount-function/src/cart_lines_discounts_generate_run.js:52 | `v[key]` on an object is that property; on an array, `length` is the item count and an index name is that element |
| JsValue.ToNumber | extensions/discount-function/src/cart_lines_discounts_generate_run.js:52 | `Number(v)`: `undefined` → NaN, `null`/`false` → 0, `true` → 1, a number is itself, a string goes through the engine's grammar, and an object or array goes through its `String` form (for an object with no own `toString` property, and an array holding none) |
| Selection.FilterMap | extensions/discount-function/src/cart_lines_discounts_generate_run.js:44-60 | the loop keeps at most one value per item |
| Selection.Picked | extensions/discount-function/src/cart_lines_discounts_generate_run.js:44-60 | the positions kept are valid, strictly increasing, and include every item that yields a value |
| Selection.FilterMapPicked | extensions/discount-function/src/cart_lines_discounts_generate_run.js:44-60 | the k-th kept value comes from the k-th picked item |
| Selection.FilterMapAppend | extensions/discount-function/src/cart_lines_discounts_generate_run.js:44-60 | items are decided one by one: filtering `xs + ys` gives the two results joined |
| Selection.RekeyedKeySet | extensions/discount-function/src/cart_lines_discounts_generate_run.js:32-35 | the keys of the re-keyed map are exactly the images of the entries' keys |
| Selection.RekeyedLastWriteWins | extensions/discount-function/src/cart_lines_discounts_generate_run.js:32-35 | a key holds the value of the last entry whose key maps to it |
| CartLinesDiscounts.Segment | extensions/discount-function/src/cart_lines_discounts_generate_run.js:19-20 | the segment is `normalizeKey` of the metafield value, a key with no whitespace, and `""` when the value is missing or blank |
| CartLinesDiscounts.NormalizedMatrix | extensions/discount-function/src/cart_lines_discounts_generate_run.js:32-35 | every key of the rebuilt matrix is a normalised key |
| CartLinesDiscounts.NormalizedMatrixKeySet | extensions/discount-function/src/cart_lines_discounts_generate_run.js:32-35 | the normalised matrix has key `k` exactly when some top-level key normalises to `k` |
| CartLinesDiscounts.NormalizedMatrixLastWriteWins | extensions/discount-function/src/cart_lines_discounts_generate_run.js:32-35 | when keys collide after normalisation, the entry that comes last wins |
| CartLinesDiscounts.NormalizedMatrixKeys | extensions/discount-function/src/cart_lines_discounts_generate_run.js:32-35 | every key of the normalised matrix is a key that normalising leaves unchanged |
| CartLinesDiscounts.SegmentMap | extensions/discount-function/src/cart_lines_discounts_generate_run.js:37-39 | a segment map exists exactly when the segment is a key and its value is an object or an array; it is that value |
| CartLinesDiscounts.Group | extensions/discount-function/src/cart_lines_discounts_generate_run.js:48-49 | the group is the product type trimmed (`""` when there is no product), with no whitespace at either end |
| CartLinesDiscounts.Percent | extensions/discount-function/src/cart_lines_discounts_generate_run.js:52 | the percentage is `Number` of the row's own entry for the group: NaN when missing, 0 for `null`, the number itself for a number, the engine's reading for a string |
| CartLinesDiscounts.CandidateFor | extensions/discount-function/src/cart_lines_discounts_generate_run.js:55-59 | the candidate targets that line alone, carries `pct` and reads `"<group> - <pct>% OFF"` |
| CartLinesDiscounts.LineCandidate | extensions/discount-function/src/cart_lines_discounts_generate_run.js:44-59 | a line earns a candidate exactly when it is a product variant with a non-blank trimmed group and a finite percentage above 0, and the candidate has that line, percentage and message |
| CartLinesDiscounts.Candidates | extensions/discount-function/src/cart_lines_discounts_generate_run.js:41-60 | at most one candidate per line |
| CartLinesDiscounts.CandidatesFollowCart | extensions/discount-function/src/cart_lines_discounts_generate_run.js:41-60 | candidates follow the cart: one per eligible line, in cart order, none for any other line, the k-th built from the k-th eligible line |
| CartLinesDiscounts.CandidatesAppend | extensions/discount-function/src/cart_lines_discounts_generate_run.js:44-60 | lines are handled independently: the candidates of `a + b` are those of `a` followed by those of `b` |
| CartLinesDiscounts.SkippedLineDoesNotAbort | extensions/discount-function/src/cart_lines_discounts_generate_run.js:45-53 | a skipped line (not a variant, blank group, bad or non-positive percentage) leaves the other lines' candidates unchanged |
| CartLinesDiscounts.GroupMatchedVerbatim | extensions/discount-function/src/cart_lines_discounts_generate_run.js:48-53 | unless some row key is exactly the trimmed group (no case folding, no normalising), the line earns nothing |
| CartLinesDiscounts.Emit | extensions/discount-function/src/cart_lines_discounts_generate_run.js:62-73 | no operation exactly when there are no candidates; otherwise one `productDiscountsAdd` applying them all |
| CartLinesDiscounts.Evaluate | extensions/discount-function/src/cart_lines_discounts_generate_run.js:18-74 | at most one operation, which applies all of its candidates with `All` and holds at least one; a blank segment or an unparsable matrix gives none |
| CartLinesDiscounts.CartLinesDiscountsGenerateRun | extensions/discount-function/src/cart_lines_discounts_generate_run.js:18-74 | the method returns `Evaluate(input, host)`, with at most one operation; an operation applies all of its candidates, and there is at least one |
| CartLinesDiscounts.BlankSegmentYieldsNoOperations | extensions/discount-function/src/cart_lines_discounts_generate_run.js:19-22 | a missing, empty or blank segment gives no operations, whatever the cart and the matrix |
| CartLinesDiscounts.UnparsableMatrixYieldsNoOperations | extensions/discount-function/src/cart_lines_discounts_generate_run.js:24-30 | a matrix blob that `JSON.parse` rejects gives no operations |
| CartLinesDiscounts.MissingMatrixYieldsNoOperations | extensions/discount-function/src/cart_lines_discounts_generate_run.js:24-30 | a missing or empty matrix metafield is parsed as `""`, rejected, and gives no operations |
| CartLinesDiscounts.UnknownSegmentYieldsNoOperations | extensions/discount-function/src/cart_lines_discounts_generate_run.js:32-39 | when no top-level key normalises to the segment, there are no operations |
| CartLinesDiscounts.SelectedRowDecides | extensions/discount-function/src/cart_lines_discounts_generate_run.js:32-73 | the row is the last entry whose key normalises to the segment; a row that is not an object gives nothing, otherwise the result is that row's candidates, emitted |
| CartLinesDiscounts.SegmentSpellingIrrelevant | extensions/discount-function/src/cart_lines_discounts_generate_run.js:19-20 | two segment values with the same key give the same result for the same matrix and cart |
| CartLinesDiscounts.PaddedSegmentSameResult | extensions/discount-function/src/cart_lines_discounts_generate_run.js:19-20 | a segment value padded with whitespace, such as `" Vip "`, gives the same result as the bare value |
| CartLinesDiscounts.CaseChangedSegmentSameResult | extensions/discount-function/src/cart_lines_discounts_generate_run.js:19-20 | a segment value written in another letter case gives the same result |
| CartLinesDiscounts.PaddedProductTypeSameCandidate | extensions/discount-function/src/cart_lines_discounts_generate_run.js:48-59 | a product type padded with whitespace, such as `" Spices "`, earns the same candidate, or none, as the bare type |
| CartDeliveryDiscounts.ExitTaken | extensions/discount-function/src/cart_delivery_options_discounts_generate_run.js:17-28 | the guards in order: no first delivery group; shipping class not enabled; both guards passed. Each case holds exactly under its condition |
| CartDeliveryDiscounts.CartDeliveryOptionsDiscountsGenerateRun | extensions/discount-function/src/cart_delivery_options_discounts_generate_run.js:16-34 | on every path the operation list is empty |
| Examples.PaddedEastCoastKey | extensions/discount-function/src/cart_lines_discounts_generate_run.js:76-82 | `"  East   COAST "` keys to `EAST_COAST` |
| Examples.PlainEastCoastKey | extensions/discount-function/src/cart_lines_discounts_generate_run.js:76-82 | `"east coast"` keys to `EAST_COAST` |
| Examples.VipKey | extensions/discount-function/src/cart_lines_discounts_generate_run.js:76-82 | `"vip"` keys to `VIP` |
| Examples.PaddedVipKey | extensions/discount-function/src/cart_lines_discounts_generate_run.js:76-82 | `" Vip "` keys to `VIP` |
| Examples.VariantLineCandidate | extensions/discount-function/src/cart_lines_discounts_generate_run.js:44-59 | a variant line whose group has a positive entry in the row gets exactly its one candidate |
| Examples.OneRowOneLine | extensions/discount-function/src/cart_lines_discounts_generate_run.js:18-74 | with a one-row matrix and a one-line cart whose group has a positive entry, the result is one operation with one candidate |
| Examples.VipSpicesTenPercent | extensions/discount-function/src/cart_lines_discounts_generate_run.js:18-74 | segment `"vip"` with `{"VIP": {"Spices": 10}}` and a Spices line gives the single candidate `"Spices - 10% OFF"` at 10% |
| Examples.ZeroAndUnlistedSkipped | extensions/discount-function/src/cart_lines_discounts_generate_run.js:48-53 | a 0% Spices entry and an unlisted Oils line give no candidates |
| Examples.SingletonArrayPercent | extensions/discount-function/src/cart_lines_discounts_generate_run.js:52 | a percentage written as `[10]` reads through the string form of its element |
| Examples.StripBetween | extensions/discount-function/src/cart_lines_discounts_generate_run.js:81 | a disallowed character between two key characters is dropped and both are kept, in order |
| Examples.NoDeliveryGroupNoOperations | extensions/discount-function/src/cart_delivery_options_discounts_generate_run.js:17-20 | a cart with no delivery group takes the first exit and gets no operations |

## Left out

- NormalizeKey: upper-casing covers ASCII letters only. JavaScript's `toUpperCase` also maps some other characters into `A`-`Z`, such as `ß` → `SS`, `ı` → `I` and `ﬀ` → `FF`. The model keeps those characters unchanged, and the last stage then drops them, so such labels get a shorter key than in the engine.
- Characters are Unicode code points. JavaScript strings are UTF-16 code units, which differ only outside the Basic Multilingual Plane; the normaliser drops those characters either way.
- `JSON.parse`, `Number(string)` and `String(number)` are engine routines. They are the parameters of a `Host`, and their grammar and rendering are not modelled.
- Numbers are `Finite(real)`, `NaN` or ±Infinity. IEEE rounding and the sign of zero are not modelled.
- `Object.entries` lists the properties as `JSON.parse` built them. Putting integer-like keys first is left to the host's property order.
- JsValue.ToNumber: a row entry that is an object with an own `toString` property, or an array holding such an object, makes `Number(segmentMap[group])` throw a TypeError at cart_lines_discounts_generate_run.js:52. For example, `{"VIP": {"Spices": {"toString": 1}}}` with a Spices line fails the whole run. The model reads `"[object Object]"` there, so the line gets NaN and is skipped. `JsValue.JsToString` has the same gap.
- Inherited prototype members, such as `segmentMap["toString"]`, count as absent. Each is a function or a prototype object. It coerces to NaN, or to 0 for an array's `__proto__`; either way the line is skipped, just as for `undefined`.
- CartLinesDiscounts.Evaluate: when the segment is not blank, a matrix blob that parses to `null` makes the source throw at `Object.entries`. The model excludes that case with the precondition `EntriesDefined` rather than modelling the exception.
- CartDeliveryDiscounts.CartDeliveryOptionsDiscountsGenerateRun: the source dereferences `input.cart` and `input.discount` without optional chaining and throws when they are missing. The model's input always has both lists.
- The optional chains that read the input (`input?.cart?.buyerIdentity?...`) are flattened into `Option` fields. A missing link and a missing value both read as `None`.
- Storing the matrix and the tags through the admin API, provisioning the discount, and the editing page are I/O over a remote store. They are not part of this model: `app/models/discount.server.js`, `app/utils/admin.server.js`, `app/utils/appStore.server.js` and `app/routes/app._index.jsx`.
