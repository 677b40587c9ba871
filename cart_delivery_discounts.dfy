/**
 * `cartDeliveryOptionsDiscountsGenerateRun`: the shipping-discount hook. It
 * checks that the cart has a delivery group and that the discount is enabled
 * for the shipping class, and on every path, including the one past both
 * checks, returns an empty list of operations.
 */
module CartDeliveryDiscounts {

  datatype DiscountClass = Order | Product | Shipping

  datatype DeliveryGroup = DeliveryGroup(id: string)

  /** `input.cart.deliveryGroups` and `input.discount.discountClasses`. */
  datatype DeliveryInput = DeliveryInput(
    deliveryGroups: seq<DeliveryGroup>,
    discountClasses: seq<DiscountClass>)

  // The output types mirror the generated API. The hook never builds a
  // candidate or an operation, so only the empty list of operations occurs.

  datatype DeliveryDiscountSelectionStrategy = All

  datatype DeliveryDiscountCandidate = DeliveryDiscountCandidate(
    message: string,
    deliveryGroupIds: seq<string>,
    percentage: real)

  datatype DeliveryOperation = DeliveryDiscountsAdd(
    candidates: seq<DeliveryDiscountCandidate>,
    selectionStrategy: DeliveryDiscountSelectionStrategy)

  datatype DeliveryResult = DeliveryResult(operations: seq<DeliveryOperation>)

  /** Which of the three `return` statements the function reaches. */
  datatype Exit = NoDeliveryGroup | ShippingNotEnabled | GuardsPassed

  /** The guards in source order: `deliveryGroups[0]` is `undefined` exactly when there is no group. */
  function ExitTaken(input: DeliveryInput): (e: Exit)
    ensures e == NoDeliveryGroup <==> input.deliveryGroups == []
    ensures e == ShippingNotEnabled <==> input.deliveryGroups != [] && Shipping !in input.discountClasses
    ensures e == GuardsPassed <==> input.deliveryGroups != [] && Shipping in input.discountClasses
  {
    if |input.deliveryGroups| == 0 then NoDeliveryGroup
    else if Shipping !in input.discountClasses then ShippingNotEnabled
    else GuardsPassed
  }

  /** The hook: whatever guard stops it, or none, the list of operations is empty. */
  function CartDeliveryOptionsDiscountsGenerateRun(input: DeliveryInput): (r: DeliveryResult)
    ensures r.operations == []
  {
    match ExitTaken(input)
    case NoDeliveryGroup => DeliveryResult([])
    case ShippingNotEnabled => DeliveryResult([])
    case GuardsPassed => DeliveryResult([])
  }
}
