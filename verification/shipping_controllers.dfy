/**
 The three carrier controllers. Each has the same three actions — the fee
 for a weight, the service description and an availability check against
 a weight limit — and differs only in its constants, gathered here in one
 `Profile` per carrier. The weight comes from the request, with 1 when the
 request has none.
 */
module ShippingControllers {
  import opened Wrappers
  import opened Logistics
  import ShippingConfig

  /** The constants a controller writes into its responses. */
  datatype Profile = Profile(
    provider: string,
    baseFee: int,
    feePerKg: int,
    feeMessage: string,
    serviceClass: string,
    description: string,
    estimate: string,
    maxWeight: int,
    refusal: string)

  function ProfileOf(c: Carrier): Profile {
    match c
    case BlackCat =>
      Profile("黑貓貨運", 100, 10, "黑貓貨運運費計算完成", "App\\Services\\BlackCat",
              "黑貓貨運提供快速可靠的貨運服務", "2-3天", 50, "無法運送超過50公斤的貨物")
    case Hsinchu =>
      Profile("新竹貨運", 80, 15, "新竹貨運運費計算完成", "App\\Services\\Hsinchu",
              "新竹貨運提供經濟實惠的貨運服務", "3-5天", 30, "無法運送超過30公斤的貨物")
    case PostOffice =>
      Profile("郵局", 70, 20, "郵局運費計算完成", "App\\Services\\PostOffice",
              "郵局提供穩定可靠的貨運服務", "5-7天", 20, "無法運送超過20公斤的貨物")
  }

  const Available := "服務可用"
  const OverLimit := "超過重量限制"

  /** The weight of a request: the given one, or 1. */
  function RequestWeight(input: Option<int>): (w: int)
    ensures input.Some? ==> w == input.value
    ensures input.None? ==> w == 1
  {
    match input
    case None => 1
    case Some(v) => v
  }

  datatype FeeResponse = FeeResponse(provider: string, weight: int, fee: int, baseFee: int, feePerKg: int, message: string)

  datatype InfoResponse = InfoResponse(provider: string, baseFee: int, feePerKg: int, serviceClass: string, description: string)

  datatype AvailabilityResponse = AvailabilityResponse(
    provider: string, weight: int, available: bool, estimatedDeliveryTime: string, maxWeight: int, message: string)

  /** The fee action: the carrier's service computes the fee, and the
      response repeats the controller's own constants. No weight limit is
      applied. The fee it reports is the one its constants describe. */
  function CalculateFeeAction(c: Carrier, input: Option<int>): (r: FeeResponse)
    ensures r.weight == RequestWeight(input)
    ensures r.fee == r.baseFee + r.weight * r.feePerKg
    ensures r.provider == ShippingConfig.Providers[KeyOf(c)].name
  {
    var p := ProfileOf(c);
    var weight := RequestWeight(input);
    FeeResponse(p.provider, weight, CalculateFee(c, weight), p.baseFee, p.feePerKg, p.feeMessage)
  }

  /** The service description. */
  function GetServiceInfo(c: Carrier): (r: InfoResponse)
    ensures r.provider == ShippingConfig.Providers[KeyOf(c)].name
    ensures r.baseFee == ShippingConfig.Providers[KeyOf(c)].baseFee
    ensures r.feePerKg == ShippingConfig.Providers[KeyOf(c)].feePerKg
  {
    var p := ProfileOf(c);
    InfoResponse(p.provider, p.baseFee, p.feePerKg, p.serviceClass, p.description)
  }

  /** The availability check: available exactly when the weight does not
      exceed the carrier's limit. */
  function CheckAvailability(c: Carrier, input: Option<int>): (r: AvailabilityResponse)
    ensures r.weight == RequestWeight(input)
    ensures r.available <==> r.weight <= r.maxWeight
    ensures r.maxWeight == ProfileOf(c).maxWeight
    ensures r.available ==> r.estimatedDeliveryTime == ProfileOf(c).estimate && r.message == Available
    ensures !r.available ==> r.estimatedDeliveryTime == ProfileOf(c).refusal && r.message == OverLimit
  {
    var p := ProfileOf(c);
    var weight := RequestWeight(input);
    var ok := !(weight > p.maxWeight);
    AvailabilityResponse(p.provider, weight, ok, if ok then p.estimate else p.refusal, p.maxWeight,
                         if ok then Available else OverLimit)
  }

  /** The key of a carrier's row in the provider table. */
  function KeyOf(c: Carrier): (k: string)
    ensures k in ShippingConfig.Providers && ShippingConfig.Providers[k].carrier == c
  {
    match c
    case BlackCat => "black_cat"
    case Hsinchu => "hsinchu"
    case PostOffice => "post_office"
  }

  /** Without a weight, each controller quotes 1 kilogram: 110, 95 and 90. */
  lemma DefaultWeightQuotes()
    ensures CalculateFeeAction(BlackCat, None) == FeeResponse("黑貓貨運", 1, 110, 100, 10, "黑貓貨運運費計算完成")
    ensures CalculateFeeAction(Hsinchu, None).fee == 95
    ensures CalculateFeeAction(PostOffice, None).fee == 90
  {
  }

  /** The fee action quotes for any weight, including weights its own
      availability check refuses. */
  lemma FeeIgnoresLimit(c: Carrier, w: int)
    requires w > ProfileOf(c).maxWeight
    ensures !CheckAvailability(c, Some(w)).available
    ensures CalculateFeeAction(c, Some(w)).fee == CalculateFee(c, w)
  {
  }

  /** The limits are 50, 30 and 20 kilograms, and the limit itself is
      still accepted. */
  lemma Limits(w: int)
    ensures CheckAvailability(BlackCat, Some(w)).available <==> w <= 50
    ensures CheckAvailability(Hsinchu, Some(w)).available <==> w <= 30
    ensures CheckAvailability(PostOffice, Some(w)).available <==> w <= 20
    ensures CheckAvailability(BlackCat, None).available
  {
  }

  /** The reported maximum does not depend on the request. */
  lemma MaxWeightConstant(c: Carrier, a: Option<int>, b: Option<int>)
    ensures CheckAvailability(c, a).maxWeight == CheckAvailability(c, b).maxWeight
  {
  }

  /** The description and the fee response report the same constants, and
      those constants are the ones the service charges by. */
  lemma InfoAgreesWithFee(c: Carrier, input: Option<int>)
    ensures GetServiceInfo(c).baseFee == CalculateFeeAction(c, input).baseFee
    ensures GetServiceInfo(c).feePerKg == CalculateFeeAction(c, input).feePerKg
    ensures GetServiceInfo(c).provider == CalculateFeeAction(c, input).provider
    ensures CalculateFee(c, 0) == GetServiceInfo(c).baseFee && GetServiceInfo(c).feePerKg == Step(c)
  {
  }
}
