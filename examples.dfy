/** Worked examples of the evaluator on small carts and matrices. */
module Examples {
  import opened Wrappers
  import opened JsText
  import opened KeyNormalizer
  import opened JsValue
  import opened CartLinesDiscounts
  import opened CartDeliveryDiscounts
  import opened Selection

  const SpicesLine := CartLine("line-1", Merchandise("ProductVariant", Some(CartLinesDiscounts.Product(Some("Spices")))))
  const OilsLine := CartLine("line-2", Merchandise("ProductVariant", Some(CartLinesDiscounts.Product(Some("Oils")))))

  /** The matrix metafield's text for a 10% Spices discount for VIP buyers. */
  const VipSpicesText := "{\"VIP\": {\"Spices\": 10}}"

  function Row(pct: Json): Json {
    JObject([("VIP", JObject([("Spices", pct)]))])
  }

  /** A padded, mixed-case label with a long space run keys to `EAST_COAST`. */
  lemma PaddedEastCoastKey(text: string)
    requires text == "  East   COAST "
    ensures NormalizeKey(text) == "EAST_COAST"
  {
    assert text == "  " + "East" + "   " + "COAST" + " ";
    assert ToUpper("East") == "EAST" && ToUpper("COAST") == "COAST";
    TwoWordKey("  ", "East", "   ", "COAST", " ");
  }

  /** The plain lower-case spelling keys to `EAST_COAST` too. */
  lemma PlainEastCoastKey(text: string)
    requires text == "east coast"
    ensures NormalizeKey(text) == "EAST_COAST"
  {
    assert text == "" + "east" + " " + "coast" + "";
    assert ToUpper("east") == "EAST" && ToUpper("coast") == "COAST";
    TwoWordKey("", "east", " ", "coast", "");
  }

  /** The segment "vip" keys to the matrix key "VIP". */
  lemma VipKey(text: string, key: string)
    requires text == "vip" && key == "VIP"
    ensures NormalizeKey(text) == key
  {
    VipUpper(text, key);
    assert text == [] + text + [];
    WordKey([], text, []);
  }

  /** Upper-casing "vip" gives the key "VIP". */
  lemma VipUpper(text: string, key: string)
    requires text == "vip" && key == "VIP"
    ensures ToUpper(text) == key && IsKey(key)
  {
    assert ToUpper(text)[0] == 'V';
  }

  /** The padded, mixed-case segment " Vip " keys to "VIP" as well. */
  lemma PaddedVipKey(text: string, key: string)
    requires text == " Vip " && key == "VIP"
    ensures NormalizeKey(text) == key
  {
    var word := text[1..4];
    assert text == " " + word + " ";
    PaddedVipUpper(word, key);
    WordKey(" ", word, " ");
  }

  lemma PaddedVipUpper(word: string, key: string)
    requires word == "Vip" && key == "VIP"
    ensures ToUpper(word) == key && IsKey(key)
  {
    assert ToUpper(word)[1] == 'I';
  }

  /** A product variant whose product type is `group` (already trimmed) earns `pct` from `row`. */
  lemma VariantLineCandidate(line: CartLine, group: string, row: Json, pct: real, host: Host)
    requires line.merchandise == Merchandise("ProductVariant", Some(CartLinesDiscounts.Product(Some(group))))
    requires group != [] && !IsWhitespace(group[0]) && !IsWhitespace(group[|group| - 1])
    requires row.JObject? && LookupProp(row.props, group) == Some(JNumber(Finite(pct))) && pct > 0.0
    ensures Candidates([line], row, host) ==
              [ProductDiscountCandidate(group + " - " + host.numberToString(Finite(pct)) + "% OFF",
                                        [CartLineTarget(line.id)], Percentage(pct))]
  {
    TrimIdentity(group);
    assert Group(line) == group;
    var pctNum := Percent(line, row, host);
    assert Lookup(row, group) == Some(JNumber(Finite(pct)));
    assert pctNum == Finite(pct);
    var c := CandidateFor(line, pctNum, host);
    assert LineCandidate(line, row, host) == Some(c);
    var f := Decide(row, host);
    assert f(line) == Some(c);
    assert [line][..0] == [];
    assert FilterMap([line], f) == FilterMap([], f) + [c];
  }

  /** A one-row matrix and a one-line cart whose group has a positive entry in that row: one candidate. */
  lemma OneRowOneLine(input: CartLinesInput, host: Host, key: string, group: string, pct: real)
    requires Segment(input) == key && IsKey(key) && key != ""
    requires host.parseJson(MatrixRaw(input)) == Some(JObject([(key, JObject([(group, JNumber(Finite(pct)))]))]))
    requires |input.lines| == 1
    requires input.lines[0].merchandise == Merchandise("ProductVariant", Some(CartLinesDiscounts.Product(Some(group))))
    requires group != [] && !IsWhitespace(group[0]) && !IsWhitespace(group[|group| - 1]) && pct > 0.0
    ensures Evaluate(input, host) ==
              CartLinesResult([ProductDiscountsAdd(
                [ProductDiscountCandidate(group + " - " + host.numberToString(Finite(pct)) + "% OFF",
                                          [CartLineTarget(input.lines[0].id)], Percentage(pct))],
                ProductDiscountSelectionStrategy.All)])
  {
    var matrix := JObject([(key, JObject([(group, JNumber(Finite(pct)))]))]);
    NormalizeKeyFixed(key);
    SelectedRowDecides(input, host, matrix, 0);
    var row := JObject([(group, JNumber(Finite(pct)))]);
    assert input.lines == [input.lines[0]];
    VariantLineCandidate(input.lines[0], group, row, pct, host);
  }

  /** A VIP buyer with a 10% Spices entry gets one candidate for the Spices line. */
  lemma VipSpicesTenPercent(input: CartLinesInput, host: Host)
    requires input == CartLinesInput(Some("vip"), Some(VipSpicesText), [SpicesLine])
    requires host.parseJson(VipSpicesText) == Some(Row(JNumber(Finite(10.0))))
    requires host.numberToString(Finite(10.0)) == "10"
    ensures Evaluate(input, host)
            == CartLinesResult([ProductDiscountsAdd(
                 [ProductDiscountCandidate("Spices - 10% OFF", [CartLineTarget("line-1")], Percentage(10.0))],
                 ProductDiscountSelectionStrategy.All)])
  {
    VipKey(input.segmentValue.value, "VIP");
    var group := input.lines[0].merchandise.product.value.productType.value;
    SpicesMessage(group, host.numberToString(Finite(10.0)));
    var msg := group + " - " + host.numberToString(Finite(10.0)) + "% OFF";
    OneRowOneLine(input, host, "VIP", group, 10.0);
    assert Evaluate(input, host)
           == CartLinesResult([ProductDiscountsAdd(
                [ProductDiscountCandidate(msg, [CartLineTarget(input.lines[0].id)], Percentage(10.0))],
                ProductDiscountSelectionStrategy.All)]);
  }

  /** The message built for the "Spices" group at 10 percent. */
  lemma SpicesMessage(group: string, n: string)
    requires group == "Spices" && n == "10"
    ensures group + " - " + n + "% OFF" == "Spices - 10% OFF"
  {
  }

  /** Zero percent is not a discount: the Spices line is skipped and the Oils line is unlisted, so no candidate. */
  lemma ZeroAndUnlistedSkipped(row: Json, host: Host)
    requires row == JObject([("Spices", JNumber(Finite(0.0)))])
    ensures Candidates([SpicesLine, OilsLine], row, host) == []
  {
    assert Group(SpicesLine) == "Spices" by { TrimIdentity("Spices"); }
    assert Group(OilsLine) == "Oils" by { TrimIdentity("Oils"); }
    GroupMatchedVerbatim(OilsLine, row.props, host);
    SkippedLineDoesNotAbort([], SpicesLine, [OilsLine], row, host);
    SkippedLineDoesNotAbort([], OilsLine, [], row, host);
    assert [] + [SpicesLine] + [OilsLine] == [SpicesLine, OilsLine];
    assert [] + [OilsLine] + [] == [OilsLine];
  }

  /** A cart with no delivery group gets an empty operation list, whatever the discount classes. */
  lemma NoDeliveryGroupNoOperations(input: DeliveryInput)
    requires input.deliveryGroups == []
    ensures ExitTaken(input) == NoDeliveryGroup
    ensures CartDeliveryOptionsDiscountsGenerateRun(input) == DeliveryResult([])
  {
  }

  /** A percentage written as a one-element array, `{"Spices": [10]}`, reads as the element's number. */
  lemma SingletonArrayPercent(v: Json, pct: Num, host: Host)
    requires v == JArray([JNumber(pct)])
    ensures ToNumber(Some(v), host) == host.stringToNumber(host.numberToString(pct))
  {
    assert JsToString(v, host) == host.numberToString(pct);
  }

  /** A disallowed character between two key characters is dropped and the two are kept, in order. */
  lemma StripBetween(a: char, bad: char, b: char)
    requires IsKeyChar(a) && IsKeyChar(b) && !IsKeyChar(bad)
    ensures StripDisallowed([a, bad, b]) == [a, b]
  {
    assert [a, bad, b] == [a] + ([bad] + [b]);
    StripAppend([a], [bad] + [b]);
    StripAppend([bad], [b]);
    StripChar(a);
    StripChar(bad);
    StripChar(b);
  }
}
