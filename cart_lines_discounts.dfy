/**
 * `cartLinesDiscountsGenerateRun`: the buyer's segment selects one row of the
 * discount matrix, and each variant-backed cart line whose product type has a
 * positive finite percentage in that row gets one percentage-discount
 * candidate. The functions below specify each step; the method
 * `CartLinesDiscountsGenerateRun` does the steps as the source does, with a
 * loop that fills the normalised matrix and a loop that pushes candidates,
 * and is proved to compute `Evaluate`.
 */
module CartLinesDiscounts {
  import opened Wrappers
  import opened JsText
  import opened KeyNormalizer
  import opened JsValue
  import opened Selection

  // ----- Input -----

  datatype Product = Product(productType: Option<string>)

  /** `line.merchandise`: its GraphQL `__typename` and, for a variant, its product. */
  datatype Merchandise = Merchandise(typename: string, product: Option<Product>)

  datatype CartLine = CartLine(id: string, merchandise: Merchandise)

  /**
   * What the function reads from its input: the customer's segment metafield
   * value, the discount's matrix metafield value (`None` where any link of the
   * optional chain is missing) and the cart lines (empty where missing).
   */
  datatype CartLinesInput = CartLinesInput(
    segmentValue: Option<string>,
    matrixValue: Option<string>,
    lines: seq<CartLine>)

  // ----- Output -----

  /** The generated API's strategies; the function only ever uses `All`. */
  datatype ProductDiscountSelectionStrategy = All | First | Maximum

  datatype CartLineTarget = CartLineTarget(id: string)

  datatype PercentageValue = Percentage(value: real)

  datatype ProductDiscountCandidate = ProductDiscountCandidate(
    message: string,
    targets: seq<CartLineTarget>,
    value: PercentageValue)

  datatype CartOperation = ProductDiscountsAdd(
    candidates: seq<ProductDiscountCandidate>,
    selectionStrategy: ProductDiscountSelectionStrategy)

  datatype CartLinesResult = CartLinesResult(operations: seq<CartOperation>)

  const NoOperations := CartLinesResult([])

  // ----- Step 1: the segment -----

  /** `segmentRaw`: the metafield value, `""` when missing or empty. */
  function SegmentRaw(input: CartLinesInput): string {
    input.segmentValue.GetOr("")
  }

  /** `segment`: the normalised segment, a key with no whitespace; blank or missing gives `""`. */
  function Segment(input: CartLinesInput): (segment: string)
    ensures segment == NormalizeKey(SegmentRaw(input))
    ensures IsKey(segment) && NoWhitespace(segment)
    ensures AllWhitespace(SegmentRaw(input)) ==> segment == ""
  {
    var raw := SegmentRaw(input);
    if AllWhitespace(raw) then NormalizeBlank(raw); NormalizeKey(raw)
    else NormalizeKey(raw)
  }

  // ----- Step 2: the matrix blob -----

  /** `matrixRaw`: the metafield value, `""` when missing or empty. */
  function MatrixRaw(input: CartLinesInput): string {
    input.matrixValue.GetOr("")
  }

  /**
   * The source reaches `Object.entries(matrix)` only with a non-empty segment
   * and a blob that parses; there a blob that parses to `null` makes it throw.
   */
  predicate EntriesDefined(input: CartLinesInput, host: Host) {
    Segment(input) != "" ==> host.parseJson(MatrixRaw(input)) != Some(JNull)
  }

  // ----- Step 3: the normalised matrix -----

  /** Inserting the entries in order, each under its normalised key, a later one overwriting an earlier one. */
  function NormalizedMatrix(entries: seq<(string, Json)>): (m: map<string, Json>)
    ensures forall k :: k in m ==> IsKey(k)
  {
    RekeyedKeysNormalized(entries);
    Rekeyed(entries, NormalizeKey)
  }

  lemma RekeyedKeysNormalized(entries: seq<(string, Json)>)
    ensures forall k :: k in Rekeyed(entries, NormalizeKey) ==> IsKey(k)
  {
    forall k | k in Rekeyed(entries, NormalizeKey) ensures IsKey(k) {
      RekeyedKeySet(entries, NormalizeKey, k);
    }
  }

  /** The keys of the normalised matrix are exactly the normalised source keys. */
  lemma NormalizedMatrixKeySet(entries: seq<(string, Json)>, k: string)
    ensures k in NormalizedMatrix(entries) <==>
              exists i :: 0 <= i < |entries| && NormalizeKey(entries[i].0) == k
  {
    RekeyedKeySet(entries, NormalizeKey, k);
  }

  /** Last write wins: a key holds the value of the last entry whose key normalises to it. */
  lemma NormalizedMatrixLastWriteWins(entries: seq<(string, Json)>, i: nat)
    requires i < |entries|
    requires forall j :: i < j < |entries| ==> NormalizeKey(entries[j].0) != NormalizeKey(entries[i].0)
    ensures NormalizeKey(entries[i].0) in NormalizedMatrix(entries)
    ensures NormalizedMatrix(entries)[NormalizeKey(entries[i].0)] == entries[i].1
  {
    RekeyedLastWriteWins(entries, NormalizeKey, i);
  }

  /** Every key of the normalised matrix is a normalised key. */
  lemma NormalizedMatrixKeys(entries: seq<(string, Json)>, k: string)
    requires k in NormalizedMatrix(entries)
    ensures IsKey(k) && NormalizeKey(k) == k
  {
    NormalizedMatrixKeySet(entries, k);
    var i :| 0 <= i < |entries| && NormalizeKey(entries[i].0) == k;
    NormalizeKeyIdempotent(entries[i].0);
  }

  // ----- Step 4: the segment's row -----

  /** `segmentMap`: the row of the normalised matrix for the segment, if it is an object or an array. */
  function SegmentMap(matrix: map<string, Json>, segment: string): (r: Option<Json>)
    ensures r.Some? <==> segment in matrix && matrix[segment].IsObjectLike()
    ensures r.Some? ==> r.value == matrix[segment]
  {
    if segment in matrix && matrix[segment].IsObjectLike() then Some(matrix[segment]) else None
  }

  // ----- Step 5: one line -----

  /** `line?.merchandise?.product?.productType || ""`: the raw product type. */
  function ProductType(line: CartLine): string {
    if line.merchandise.product.Some? then line.merchandise.product.value.productType.GetOr("")
    else ""
  }

  /** `String(groupRaw).trim()`: the line's group, the product type only trimmed. */
  function Group(line: CartLine): (group: string)
    ensures group == Trim(ProductType(line))
    ensures group == [] || (!IsWhitespace(group[0]) && !IsWhitespace(group[|group| - 1]))
    ensures line.merchandise.product.None? ==> group == ""
  {
    Trim(ProductType(line))
  }

  function IsVariantLine(line: CartLine): bool {
    line.merchandise.typename == "ProductVariant"
  }

  /** `Number(segmentMap[group])`: the group is looked up verbatim. */
  function Percent(line: CartLine, segmentMap: Json, host: Host): (pct: Num)
    requires segmentMap.IsObjectLike()
    ensures pct == ToNumber(Lookup(segmentMap, Group(line)), host)
    ensures Lookup(segmentMap, Group(line)).None? ==> pct == NaN
    ensures Lookup(segmentMap, Group(line)) == Some(JNull) ==> pct == Finite(0.0)
    ensures forall n :: Lookup(segmentMap, Group(line)) == Some(JNumber(n)) ==> pct == n
  {
    ToNumber(Lookup(segmentMap, Group(line)), host)
  }

  /** The three conditions under which a line earns a candidate. */
  predicate Eligible(line: CartLine, segmentMap: Json, host: Host)
    requires segmentMap.IsObjectLike()
  {
    IsVariantLine(line) && Group(line) != "" && Percent(line, segmentMap, host).IsPositiveFinite()
  }

  /** The candidate pushed for a line: `"<group> - <pct>% OFF"`, targeting that line only, worth `pct` percent. */
  function CandidateFor(line: CartLine, pct: Num, host: Host): (c: ProductDiscountCandidate)
    requires pct.Finite?
    ensures c.targets == [CartLineTarget(line.id)]
    ensures c.value == Percentage(pct.value)
    ensures c.message == Group(line) + " - " + host.numberToString(pct) + "% OFF"
  {
    ProductDiscountCandidate(Group(line) + " - " + host.numberToString(pct) + "% OFF",
                             [CartLineTarget(line.id)], Percentage(pct.value))
  }

  /**
   * What one line contributes: a candidate exactly when the line is a
   * product variant, its trimmed group is non-empty and its percentage is a
   * finite number above zero.
   */
  function LineCandidate(line: CartLine, segmentMap: Json, host: Host): (r: Option<ProductDiscountCandidate>)
    requires segmentMap.IsObjectLike()
    ensures r.Some? <==> IsVariantLine(line) && Group(line) != "" &&
                         Percent(line, segmentMap, host).IsPositiveFinite()
    ensures r.Some? ==> r.value.targets == [CartLineTarget(line.id)] &&
                        r.value.value.value == Percent(line, segmentMap, host).value > 0.0 &&
                        r.value.message == Group(line) + " - " +
                          host.numberToString(Percent(line, segmentMap, host)) + "% OFF"
  {
    if !IsVariantLine(line) then None
    else if Group(line) == "" then None
    else
      var pct := Percent(line, segmentMap, host);
      if !pct.IsPositiveFinite() then None
      else Some(CandidateFor(line, pct, host))
  }

  /** The per-line decision of the candidate loop, for one segment row. */
  function Decide(segmentMap: Json, host: Host): CartLine -> Option<ProductDiscountCandidate>
    requires segmentMap.IsObjectLike()
  {
    (line: CartLine) => LineCandidate(line, segmentMap, host)
  }

  /** The candidates of the lines, in cart order. */
  function Candidates(lines: seq<CartLine>, segmentMap: Json, host: Host): (cs: seq<ProductDiscountCandidate>)
    requires segmentMap.IsObjectLike()
    ensures |cs| <= |lines|
  {
    FilterMap(lines, Decide(segmentMap, host))
  }

  /** The positions of the lines that earn a candidate. */
  function EligibleIndices(lines: seq<CartLine>, segmentMap: Json, host: Host): seq<nat>
    requires segmentMap.IsObjectLike()
  {
    Picked(lines, Decide(segmentMap, host))
  }

  /**
   * Candidates follow the cart: the k-th candidate belongs to the k-th
   * eligible line (positions strictly increasing), targets that line alone
   * and carries its percentage and message; every eligible line has its
   * candidate and no other line has one.
   */
  lemma CandidatesFollowCart(lines: seq<CartLine>, segmentMap: Json, host: Host)
    requires segmentMap.IsObjectLike()
    ensures var cs, idx := Candidates(lines, segmentMap, host), EligibleIndices(lines, segmentMap, host);
            && |cs| == |idx|
            && (forall k, k' :: 0 <= k < k' < |idx| ==> idx[k] < idx[k'])
            && (forall i :: 0 <= i < |lines| ==> (Eligible(lines[i], segmentMap, host) <==> i in idx))
            && (forall k :: 0 <= k < |cs| ==>
                  && idx[k] < |lines|
                  && cs[k] == CandidateFor(lines[idx[k]], Percent(lines[idx[k]], segmentMap, host), host))
  {
    var f := Decide(segmentMap, host);
    FilterMapPicked(lines, f);
    var cs, idx := Candidates(lines, segmentMap, host), EligibleIndices(lines, segmentMap, host);
    forall k | 0 <= k < |cs|
      ensures cs[k] == CandidateFor(lines[idx[k]], Percent(lines[idx[k]], segmentMap, host), host)
    {
      assert f(lines[idx[k]]) == LineCandidate(lines[idx[k]], segmentMap, host);
    }
    forall i | 0 <= i < |lines| ensures Eligible(lines[i], segmentMap, host) <==> i in idx {
      assert f(lines[i]) == LineCandidate(lines[i], segmentMap, host);
      if i in idx {
        var k :| 0 <= k < |idx| && idx[k] == i;
      }
    }
  }

  /** Lines are handled independently: the candidates of a concatenation are the concatenated candidates. */
  lemma CandidatesAppend(a: seq<CartLine>, b: seq<CartLine>, segmentMap: Json, host: Host)
    requires segmentMap.IsObjectLike()
    ensures Candidates(a + b, segmentMap, host) == Candidates(a, segmentMap, host) + Candidates(b, segmentMap, host)
  {
    FilterMapAppend(a, b, Decide(segmentMap, host));
  }

  /**
   * A line that is skipped (not a variant, blank group, or a percentage that
   * is missing, non-numeric, infinite, zero or negative) leaves the other
   * lines' candidates exactly as they would be without it.
   */
  lemma SkippedLineDoesNotAbort(before: seq<CartLine>, line: CartLine, after: seq<CartLine>, segmentMap: Json, host: Host)
    requires segmentMap.IsObjectLike()
    requires !Eligible(line, segmentMap, host)
    ensures Candidates(before + [line] + after, segmentMap, host) == Candidates(before + after, segmentMap, host)
  {
    var f := Decide(segmentMap, host);
    FilterMapAppend(before + [line], after, f);
    FilterMapAppend(before, [line], f);
    FilterMapAppend(before, after, f);
    assert f(line) == LineCandidate(line, segmentMap, host);
    assert [line][..0] == [];
  }

  /**
   * The cart's group is matched verbatim: unless some own key of the row is
   * exactly the trimmed group (no case folding, no underscores), the line
   * earns nothing.
   */
  lemma GroupMatchedVerbatim(line: CartLine, props: seq<(string, Json)>, host: Host)
    requires forall i :: 0 <= i < |props| ==> props[i].0 != Group(line)
    ensures !Eligible(line, JObject(props), host)
  {
  }

  // ----- Steps 6 and 7: the result -----

  /** No operation for no candidates; otherwise a single `productDiscountsAdd` applying all of them. */
  function Emit(candidates: seq<ProductDiscountCandidate>): (r: CartLinesResult)
    ensures candidates == [] <==> r.operations == []
    ensures candidates != [] ==> r.operations == [ProductDiscountsAdd(candidates, All)]
  {
    if |candidates| == 0 then NoOperations
    else CartLinesResult([ProductDiscountsAdd(candidates, All)])
  }

  /** The whole function, step by step. */
  function Evaluate(input: CartLinesInput, host: Host): (r: CartLinesResult)
    requires EntriesDefined(input, host)
    ensures |r.operations| <= 1
    ensures r.operations != [] ==> r.operations[0].selectionStrategy == All && r.operations[0].candidates != []
    ensures Segment(input) == "" || host.parseJson(MatrixRaw(input)).None? ==> r == NoOperations
  {
    var segment := Segment(input);
    if segment == "" then NoOperations
    else match host.parseJson(MatrixRaw(input))
      case None => NoOperations
      case Some(matrix) =>
        match SegmentMap(NormalizedMatrix(Entries(matrix)), segment)
        case None => NoOperations
        case Some(segmentMap) => Emit(Candidates(input.lines, segmentMap, host))
  }

  /**
   * `cartLinesDiscountsGenerateRun(input)`. It returns what `Evaluate`
   * specifies; in particular at most one operation, and when there is one it
   * applies every candidate (`All`) and holds at least one.
   */
  method CartLinesDiscountsGenerateRun(input: CartLinesInput, host: Host) returns (result: CartLinesResult)
    requires EntriesDefined(input, host)
    ensures result == Evaluate(input, host)
    ensures |result.operations| <= 1
    ensures result.operations != [] ==>
              result.operations[0].selectionStrategy == All && result.operations[0].candidates != []
  {
    var segment := NormalizeKey(input.segmentValue.GetOr(""));
    if segment == "" {
      return NoOperations;
    }

    var parsed := host.parseJson(input.matrixValue.GetOr(""));
    if parsed.None? {
      return NoOperations;
    }
    var matrix := parsed.value;

    var entries := Entries(matrix);
    var normalizedMatrix: map<string, Json> := map[];
    for i := 0 to |entries|
      invariant normalizedMatrix == NormalizedMatrix(entries[..i])
    {
      assert entries[..i + 1][..i] == entries[..i];
      normalizedMatrix := normalizedMatrix[NormalizeKey(entries[i].0) := entries[i].1];
    }
    assert entries[..|entries|] == entries;

    if segment !in normalizedMatrix || !normalizedMatrix[segment].IsObjectLike() {
      return NoOperations;
    }
    var segmentMap := normalizedMatrix[segment];

    var candidates: seq<ProductDiscountCandidate> := [];
    var lines := input.lines;
    for i := 0 to |lines|
      invariant candidates == Candidates(lines[..i], segmentMap, host)
    {
      assert lines[..i + 1][..i] == lines[..i];
      var line := lines[i];
      if line.merchandise.typename != "ProductVariant" {
        assert LineCandidate(line, segmentMap, host) == None;
        continue;
      }
      var groupRaw := if line.merchandise.product.Some? then line.merchandise.product.value.productType.GetOr("") else "";
      var group := Trim(groupRaw);
      assert group == Group(line);
      if group == "" {
        assert LineCandidate(line, segmentMap, host) == None;
        continue;
      }
      var pct := ToNumber(Lookup(segmentMap, group), host);
      assert pct == Percent(line, segmentMap, host);
      if !pct.Finite? || pct.value <= 0.0 {
        assert LineCandidate(line, segmentMap, host) == None;
        continue;
      }
      assert LineCandidate(line, segmentMap, host) == Some(CandidateFor(line, pct, host));
      candidates := candidates + [ProductDiscountCandidate(
        group + " - " + host.numberToString(pct) + "% OFF",
        [CartLineTarget(line.id)],
        Percentage(pct.value))];
    }
    assert lines[..|lines|] == lines;

    if |candidates| == 0 {
      return NoOperations;
    }
    return CartLinesResult([ProductDiscountsAdd(candidates, All)]);
  }

  // ----- Properties of the whole function -----

  /** A missing, empty or blank segment gives no operations, whatever the cart and the matrix. */
  lemma BlankSegmentYieldsNoOperations(input: CartLinesInput, host: Host)
    requires AllWhitespace(SegmentRaw(input))
    requires EntriesDefined(input, host)
    ensures Evaluate(input, host) == NoOperations
  {
    NormalizeBlank(SegmentRaw(input));
  }

  /** A matrix blob that does not parse gives no operations. */
  lemma UnparsableMatrixYieldsNoOperations(input: CartLinesInput, host: Host)
    requires host.parseJson(MatrixRaw(input)).None?
    ensures EntriesDefined(input, host)
    ensures Evaluate(input, host) == NoOperations
  {
  }

  /** A missing or empty matrix is parsed as `""`, which `JSON.parse` rejects, so it gives no operations. */
  lemma MissingMatrixYieldsNoOperations(input: CartLinesInput, host: Host)
    requires input.matrixValue.None? || input.matrixValue == Some("")
    requires host.parseJson("").None?
    ensures EntriesDefined(input, host)
    ensures Evaluate(input, host) == NoOperations
  {
    UnparsableMatrixYieldsNoOperations(input, host);
  }

  /** No top-level key of the matrix normalises to the segment: no operations. */
  lemma UnknownSegmentYieldsNoOperations(input: CartLinesInput, host: Host, matrix: Json)
    requires host.parseJson(MatrixRaw(input)) == Some(matrix) && !matrix.JNull?
    requires forall i :: 0 <= i < |Entries(matrix)| ==> NormalizeKey(Entries(matrix)[i].0) != Segment(input)
    ensures Evaluate(input, host) == NoOperations
  {
    NormalizedMatrixKeySet(Entries(matrix), Segment(input));
  }

  /**
   * The row is the value of the last top-level entry whose key normalises to
   * the segment. If it is not an object or an array there are no operations;
   * otherwise the result is that row's candidates for the cart, emitted as
   * one operation or none.
   */
  lemma SelectedRowDecides(input: CartLinesInput, host: Host, matrix: Json, i: nat)
    requires Segment(input) != ""
    requires host.parseJson(MatrixRaw(input)) == Some(matrix) && !matrix.JNull?
    requires i < |Entries(matrix)| && NormalizeKey(Entries(matrix)[i].0) == Segment(input)
    requires forall j :: i < j < |Entries(matrix)| ==> NormalizeKey(Entries(matrix)[j].0) != Segment(input)
    ensures !Entries(matrix)[i].1.IsObjectLike() ==> Evaluate(input, host) == NoOperations
    ensures Entries(matrix)[i].1.IsObjectLike() ==>
              Evaluate(input, host) == Emit(Candidates(input.lines, Entries(matrix)[i].1, host))
  {
    NormalizedMatrixLastWriteWins(Entries(matrix), i);
  }

  /** Only the segment's key matters: two spellings with the same key give the same result. */
  lemma SegmentSpellingIrrelevant(a: CartLinesInput, b: CartLinesInput, host: Host)
    requires NormalizeKey(SegmentRaw(a)) == NormalizeKey(SegmentRaw(b))
    requires a.matrixValue == b.matrixValue && a.lines == b.lines
    requires EntriesDefined(a, host)
    ensures EntriesDefined(b, host)
    ensures Evaluate(a, host) == Evaluate(b, host)
  {
    assert Segment(a) == Segment(b);
    assert MatrixRaw(a) == MatrixRaw(b);
  }

  /** A segment value padded with whitespace gives the same result as the bare value. */
  lemma PaddedSegmentSameResult(a: CartLinesInput, b: CartLinesInput, w1: string, w2: string, host: Host)
    requires AllWhitespace(w1) && AllWhitespace(w2)
    requires SegmentRaw(b) == w1 + SegmentRaw(a) + w2
    requires a.matrixValue == b.matrixValue && a.lines == b.lines
    requires EntriesDefined(a, host)
    ensures EntriesDefined(b, host)
    ensures Evaluate(a, host) == Evaluate(b, host)
  {
    NormalizeKeyPadding(w1, SegmentRaw(a), w2);
    SegmentSpellingIrrelevant(a, b, host);
  }

  /** A segment value written in another letter case gives the same result. */
  lemma CaseChangedSegmentSameResult(a: CartLinesInput, b: CartLinesInput, host: Host)
    requires ToUpper(SegmentRaw(a)) == ToUpper(SegmentRaw(b))
    requires a.matrixValue == b.matrixValue && a.lines == b.lines
    requires EntriesDefined(a, host)
    ensures EntriesDefined(b, host)
    ensures Evaluate(a, host) == Evaluate(b, host)
  {
    NormalizeKeyCaseInsensitive(SegmentRaw(a), SegmentRaw(b));
    SegmentSpellingIrrelevant(a, b, host);
  }

  /**
   * A product type padded with whitespace is trimmed back: the line earns the
   * same candidate, or none, as with the bare product type.
   */
  lemma PaddedProductTypeSameCandidate(line: CartLine, padded: CartLine, w1: string, w2: string,
                                       segmentMap: Json, host: Host)
    requires segmentMap.IsObjectLike()
    requires AllWhitespace(w1) && AllWhitespace(w2)
    requires padded.id == line.id && padded.merchandise.typename == line.merchandise.typename
    requires padded.merchandise.product == Some(Product(Some(w1 + ProductType(line) + w2)))
    ensures LineCandidate(padded, segmentMap, host) == LineCandidate(line, segmentMap, host)
  {
    TrimPadding(w1, ProductType(line), w2);
    assert Group(padded) == Group(line);
  }
}
