/** Instance types and their purchasable offerings, as the launch pipeline passes them around. */
module Offerings {
  /** `zone == ""` stands for an offering whose zone requirement lists no value. */
  datatype Offering = Offering(capacityType: string, zone: string, available: bool, price: real)

  datatype InstanceType = InstanceType(name: string, offerings: seq<Offering>, pods: int)

  const ON_DEMAND := "on-demand"
}
