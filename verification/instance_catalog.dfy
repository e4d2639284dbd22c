/** The static instance-type tables of the rightsizing recommender: the
    next-smaller, next-larger and memory-optimized type for each known EC2
    instance type and RDS instance class, the approximate monthly price of
    each (US East, 730 hours), and the fallback memory size used when the
    instance-type description cannot be fetched. */
module InstanceCatalog {

  /** The two services the reporter covers. The source compares the service
      string with `'EC2'` and treats every other value as RDS. */
  datatype Service = EC2 | RDS

  /** `_get_smaller_instance_type`'s table, written as the union of its
      families (the families' key sets are disjoint). */
  function DownsizeTable(service: Service): map<string, string> {
    match service
    case EC2 => Ec2DownsizeT3a() + Ec2DownsizeT3() + Ec2DownsizeM5() + Ec2DownsizeC5R5()
    case RDS => RdsDownsizeT4g() + RdsDownsizeT3() + RdsDownsizeM5R5()
  }

  function Ec2DownsizeT3a(): map<string, string> {
    map["t3a.large" := "t3a.medium", "t3a.medium" := "t3a.small", "t3a.small" := "t3a.micro",
        "t3a.xlarge" := "t3a.large", "t3a.2xlarge" := "t3a.xlarge"]
  }

  function Ec2DownsizeT3(): map<string, string> {
    map["t3.large" := "t3.medium", "t3.medium" := "t3.small", "t3.small" := "t3.micro",
        "t3.xlarge" := "t3.large", "t3.2xlarge" := "t3.xlarge"]
  }

  function Ec2DownsizeM5(): map<string, string> {
    map["m5.large" := "t3a.large", "m5.xlarge" := "m5.large", "m5.2xlarge" := "m5.xlarge",
        "m5.4xlarge" := "m5.2xlarge"]
  }

  function Ec2DownsizeC5R5(): map<string, string> {
    map["c5.large" := "t3a.medium", "c5.xlarge" := "c5.large", "c5.2xlarge" := "c5.xlarge",
        "r5.large" := "m5.large", "r5.xlarge" := "r5.large", "r5.2xlarge" := "r5.xlarge"]
  }

  function RdsDownsizeT4g(): map<string, string> {
    map["db.t4g.medium" := "db.t4g.small", "db.t4g.large" := "db.t4g.medium",
        "db.t4g.xlarge" := "db.t4g.large", "db.t4g.2xlarge" := "db.t4g.xlarge"]
  }

  function RdsDownsizeT3(): map<string, string> {
    map["db.t3.medium" := "db.t3.small", "db.t3.large" := "db.t3.medium",
        "db.t3.xlarge" := "db.t3.large", "db.t3.2xlarge" := "db.t3.xlarge"]
  }

  function RdsDownsizeM5R5(): map<string, string> {
    map["db.m5.large" := "db.t4g.large", "db.m5.xlarge" := "db.m5.large",
        "db.m5.2xlarge" := "db.m5.xlarge",
        "db.r5.large" := "db.m5.large", "db.r5.xlarge" := "db.r5.large",
        "db.r5.2xlarge" := "db.r5.xlarge"]
  }

  /** `_get_larger_instance_type`'s table: the moves within a family, plus
      the moves out of the top burstable types into the general-purpose M5
      family (the two key sets are disjoint). */
  function UpsizeTable(service: Service): map<string, string> {
    FamilyUpsizes(service) + TopBurstableUpsizes(service)
  }

  /** The upsizes that stay within a family or move up inside M5 and C5. */
  function FamilyUpsizes(service: Service): map<string, string> {
    match service
    case EC2 => Ec2UpsizeT3a() + Ec2UpsizeT3() + Ec2UpsizeM5() + Ec2UpsizeC5()
    case RDS => RdsUpsizeT4g() + RdsUpsizeT3() + RdsUpsizeM5()
  }

  /** The source's "upgrade to M5" entries, from the largest burstable types. */
  function TopBurstableUpsizes(service: Service): map<string, string> {
    match service
    case EC2 => map["t3a.2xlarge" := "m5.xlarge", "t3.2xlarge" := "m5.xlarge"]
    case RDS => map["db.t4g.2xlarge" := "db.m5.large", "db.t3.2xlarge" := "db.m5.large"]
  }

  function Ec2UpsizeT3a(): map<string, string> {
    map["t3a.micro" := "t3a.small", "t3a.small" := "t3a.medium", "t3a.medium" := "t3a.large",
        "t3a.large" := "t3a.xlarge", "t3a.xlarge" := "t3a.2xlarge"]
  }

  function Ec2UpsizeT3(): map<string, string> {
    map["t3.micro" := "t3.small", "t3.small" := "t3.medium", "t3.medium" := "t3.large",
        "t3.large" := "t3.xlarge", "t3.xlarge" := "t3.2xlarge"]
  }

  function Ec2UpsizeM5(): map<string, string> {
    map["m5.large" := "m5.xlarge", "m5.xlarge" := "m5.2xlarge", "m5.2xlarge" := "m5.4xlarge"]
  }

  function Ec2UpsizeC5(): map<string, string> {
    map["c5.large" := "c5.xlarge", "c5.xlarge" := "c5.2xlarge"]
  }

  function RdsUpsizeT4g(): map<string, string> {
    map["db.t4g.micro" := "db.t4g.small", "db.t4g.small" := "db.t4g.medium",
        "db.t4g.medium" := "db.t4g.large", "db.t4g.large" := "db.t4g.xlarge",
        "db.t4g.xlarge" := "db.t4g.2xlarge"]
  }

  function RdsUpsizeT3(): map<string, string> {
    map["db.t3.micro" := "db.t3.small", "db.t3.small" := "db.t3.medium",
        "db.t3.medium" := "db.t3.large", "db.t3.large" := "db.t3.xlarge"]
  }

  function RdsUpsizeM5(): map<string, string> {
    map["db.m5.large" := "db.m5.xlarge", "db.m5.xlarge" := "db.m5.2xlarge"]
  }

  /** `_get_memory_optimized_type`'s table, as the union of its families. */
  function MemoryOptimizedTable(service: Service): map<string, string> {
    match service
    case EC2 => Ec2MemoryFromBurstable() + Ec2MemoryFromM5C5()
    case RDS => RdsMemoryOptimized()
  }

  function Ec2MemoryFromBurstable(): map<string, string> {
    map["t3.medium" := "r5.large", "t3.large" := "r5.large", "t3.xlarge" := "r5.xlarge",
        "t3a.medium" := "r5.large", "t3a.large" := "r5.large", "t3a.xlarge" := "r5.xlarge"]
  }

  function Ec2MemoryFromM5C5(): map<string, string> {
    map["m5.large" := "r5.large", "m5.xlarge" := "r5.xlarge", "m5.2xlarge" := "r5.2xlarge",
        "c5.large" := "r5.large", "c5.xlarge" := "r5.xlarge"]
  }

  function RdsMemoryOptimized(): map<string, string> {
    map["db.t4g.medium" := "db.r5.large", "db.t4g.large" := "db.r5.large",
        "db.t3.medium" := "db.r5.large", "db.t3.large" := "db.r5.large",
        "db.m5.large" := "db.r5.large", "db.m5.xlarge" := "db.r5.xlarge"]
  }

  /** `_get_instance_monthly_cost`'s price tables. */
  function PriceTable(service: Service): map<string, real> {
    match service
    case EC2 => Ec2Prices()
    case RDS => RdsPrices()
  }

  function Ec2Prices(): map<string, real> {
    map[
      "t3.nano" := 3.80, "t3.micro" := 7.66, "t3.small" := 15.33, "t3.medium" := 30.66,
      "t3.large" := 61.32, "t3.xlarge" := 122.63, "t3.2xlarge" := 245.26,
      "t3a.nano" := 3.28, "t3a.micro" := 6.57, "t3a.small" := 13.14, "t3a.medium" := 26.28,
      "t3a.large" := 52.56, "t3a.xlarge" := 105.12, "t3a.2xlarge" := 210.24,
      "m5.large" := 70.08, "m5.xlarge" := 140.16, "m5.2xlarge" := 280.32, "m5.4xlarge" := 560.64,
      "c5.large" := 62.05, "c5.xlarge" := 124.10, "c5.2xlarge" := 248.20,
      "r5.large" := 91.25, "r5.xlarge" := 182.50, "r5.2xlarge" := 365.00, "r5.4xlarge" := 730.00]
  }

  function RdsPrices(): map<string, real> {
    map[
      "db.t2.micro" := 11.68, "db.t2.small" := 23.36, "db.t2.medium" := 46.72, "db.t2.large" := 93.44,
      "db.t3.micro" := 12.41, "db.t3.small" := 24.82, "db.t3.medium" := 49.64, "db.t3.large" := 99.28,
      "db.t3.xlarge" := 198.56, "db.t3.2xlarge" := 397.12,
      "db.t4g.micro" := 10.22, "db.t4g.small" := 20.44, "db.t4g.medium" := 40.88,
      "db.t4g.large" := 81.76, "db.t4g.xlarge" := 163.52, "db.t4g.2xlarge" := 327.04,
      "db.m5.large" := 105.12, "db.m5.xlarge" := 210.24, "db.m5.2xlarge" := 420.48,
      "db.r5.large" := 136.87, "db.r5.xlarge" := 273.75, "db.r5.2xlarge" := 547.50]
  }

  /** The price of a type missing from its service's table. */
  function FallbackPrice(service: Service): real {
    match service
    case EC2 => 50.0
    case RDS => 75.0
  }

  /** Every entry of `table` moves to a listed, strictly cheaper type. */
  ghost predicate CheaperMoves(service: Service, table: map<string, string>) {
    forall k :: k in table ==>
      && k in PriceTable(service) && table[k] in PriceTable(service)
      && PriceTable(service)[table[k]] < PriceTable(service)[k]
  }

  /** Every entry of `table` moves to a listed, strictly dearer type. */
  ghost predicate DearerMoves(service: Service, table: map<string, string>) {
    forall k :: k in table ==>
      && k in PriceTable(service) && table[k] in PriceTable(service)
      && PriceTable(service)[table[k]] > PriceTable(service)[k]
  }

  lemma CheaperMovesUnion(service: Service, a: map<string, string>, b: map<string, string>)
    requires CheaperMoves(service, a) && CheaperMoves(service, b)
    ensures CheaperMoves(service, a + b)
  {
  }

  lemma DearerMovesUnion(service: Service, a: map<string, string>, b: map<string, string>)
    requires DearerMoves(service, a) && DearerMoves(service, b)
    ensures DearerMoves(service, a + b)
  {
  }

  lemma Ec2DownsizeT3aCheaper()
    ensures forall k :: k in Ec2DownsizeT3a() ==>
              && k in Ec2Prices() && Ec2DownsizeT3a()[k] in Ec2Prices()
              && Ec2Prices()[Ec2DownsizeT3a()[k]] < Ec2Prices()[k]
  {
    assert Ec2DownsizeT3a().Keys == {"t3a.large", "t3a.medium", "t3a.small", "t3a.xlarge", "t3a.2xlarge"};
  }
  lemma Ec2DownsizeT3Cheaper()
    ensures forall k :: k in Ec2DownsizeT3() ==>
              && k in Ec2Prices() && Ec2DownsizeT3()[k] in Ec2Prices()
              && Ec2Prices()[Ec2DownsizeT3()[k]] < Ec2Prices()[k]
  {
    assert Ec2DownsizeT3().Keys == {"t3.large", "t3.medium", "t3.small", "t3.xlarge", "t3.2xlarge"};
  }
  lemma Ec2DownsizeM5Cheaper()
    ensures forall k :: k in Ec2DownsizeM5() ==>
              && k in Ec2Prices() && Ec2DownsizeM5()[k] in Ec2Prices()
              && Ec2Prices()[Ec2DownsizeM5()[k]] < Ec2Prices()[k]
  {
    assert Ec2DownsizeM5().Keys == {"m5.large", "m5.xlarge", "m5.2xlarge", "m5.4xlarge"};
  }
  lemma Ec2DownsizeC5R5Cheaper()
    ensures forall k :: k in Ec2DownsizeC5R5() ==>
              && k in Ec2Prices() && Ec2DownsizeC5R5()[k] in Ec2Prices()
              && Ec2Prices()[Ec2DownsizeC5R5()[k]] < Ec2Prices()[k]
  {
    assert Ec2DownsizeC5R5().Keys == {"c5.large", "c5.xlarge", "c5.2xlarge", "r5.large", "r5.xlarge", "r5.2xlarge"};
  }
  lemma RdsDownsizeT4gCheaper()
    ensures forall k :: k in RdsDownsizeT4g() ==>
              && k in RdsPrices() && RdsDownsizeT4g()[k] in RdsPrices()
              && RdsPrices()[RdsDownsizeT4g()[k]] < RdsPrices()[k]
  {
    assert RdsDownsizeT4g().Keys == {"db.t4g.medium", "db.t4g.large", "db.t4g.xlarge", "db.t4g.2xlarge"};
  }
  lemma RdsDownsizeT3Cheaper()
    ensures forall k :: k in RdsDownsizeT3() ==>
              && k in RdsPrices() && RdsDownsizeT3()[k] in RdsPrices()
              && RdsPrices()[RdsDownsizeT3()[k]] < RdsPrices()[k]
  {
    assert RdsDownsizeT3().Keys == {"db.t3.medium", "db.t3.large", "db.t3.xlarge", "db.t3.2xlarge"};
  }
  lemma RdsDownsizeM5R5Cheaper()
    ensures forall k :: k in RdsDownsizeM5R5() ==>
              && k in RdsPrices() && RdsDownsizeM5R5()[k] in RdsPrices()
              && RdsPrices()[RdsDownsizeM5R5()[k]] < RdsPrices()[k]
  {
    assert RdsDownsizeM5R5().Keys == {"db.m5.large", "db.m5.xlarge", "db.m5.2xlarge", "db.r5.large", "db.r5.xlarge", "db.r5.2xlarge"};
  }

  /** Every downsize goes to a different, listed, strictly cheaper type. */
  lemma DownsizesAreCheaper(service: Service)
    ensures CheaperMoves(service, DownsizeTable(service))
  {
    match service
    case EC2 =>
      Ec2DownsizeT3aCheaper();
      Ec2DownsizeT3Cheaper();
      Ec2DownsizeM5Cheaper();
      Ec2DownsizeC5R5Cheaper();
      CheaperMovesUnion(EC2, Ec2DownsizeT3a(), Ec2DownsizeT3());
      CheaperMovesUnion(EC2, Ec2DownsizeT3a() + Ec2DownsizeT3(), Ec2DownsizeM5());
      CheaperMovesUnion(EC2, Ec2DownsizeT3a() + Ec2DownsizeT3() + Ec2DownsizeM5(), Ec2DownsizeC5R5());
    case RDS =>
      RdsDownsizeT4gCheaper();
      RdsDownsizeT3Cheaper();
      RdsDownsizeM5R5Cheaper();
      CheaperMovesUnion(RDS, RdsDownsizeT4g(), RdsDownsizeT3());
      CheaperMovesUnion(RDS, RdsDownsizeT4g() + RdsDownsizeT3(), RdsDownsizeM5R5());
  }

  lemma Ec2UpsizeT3aDearer()
    ensures forall k :: k in Ec2UpsizeT3a() ==>
              && k in Ec2Prices() && Ec2UpsizeT3a()[k] in Ec2Prices()
              && Ec2Prices()[Ec2UpsizeT3a()[k]] > Ec2Prices()[k]
  {
    assert Ec2UpsizeT3a().Keys == {"t3a.micro", "t3a.small", "t3a.medium", "t3a.large", "t3a.xlarge"};
  }

  lemma Ec2UpsizeT3Dearer()
    ensures forall k :: k in Ec2UpsizeT3() ==>
              && k in Ec2Prices() && Ec2UpsizeT3()[k] in Ec2Prices()
              && Ec2Prices()[Ec2UpsizeT3()[k]] > Ec2Prices()[k]
  {
    assert Ec2UpsizeT3().Keys == {"t3.micro", "t3.small", "t3.medium", "t3.large", "t3.xlarge"};
  }

  lemma Ec2UpsizeM5Dearer()
    ensures forall k :: k in Ec2UpsizeM5() ==>
              && k in Ec2Prices() && Ec2UpsizeM5()[k] in Ec2Prices()
              && Ec2Prices()[Ec2UpsizeM5()[k]] > Ec2Prices()[k]
  {
    assert Ec2UpsizeM5().Keys == {"m5.large", "m5.xlarge", "m5.2xlarge"};
  }

  lemma Ec2UpsizeC5Dearer()
    ensures forall k :: k in Ec2UpsizeC5() ==>
              && k in Ec2Prices() && Ec2UpsizeC5()[k] in Ec2Prices()
              && Ec2Prices()[Ec2UpsizeC5()[k]] > Ec2Prices()[k]
  {
    assert Ec2UpsizeC5().Keys == {"c5.large", "c5.xlarge"};
  }

  lemma RdsUpsizeT4gDearer()
    ensures forall k :: k in RdsUpsizeT4g() ==>
              && k in RdsPrices() && RdsUpsizeT4g()[k] in RdsPrices()
              && RdsPrices()[RdsUpsizeT4g()[k]] > RdsPrices()[k]
  {
    assert RdsUpsizeT4g().Keys == {"db.t4g.micro", "db.t4g.small", "db.t4g.medium", "db.t4g.large", "db.t4g.xlarge"};
  }

  lemma RdsUpsizeT3Dearer()
    ensures forall k :: k in RdsUpsizeT3() ==>
              && k in RdsPrices() && RdsUpsizeT3()[k] in RdsPrices()
              && RdsPrices()[RdsUpsizeT3()[k]] > RdsPrices()[k]
  {
    assert RdsUpsizeT3().Keys == {"db.t3.micro", "db.t3.small", "db.t3.medium", "db.t3.large"};
  }

  lemma RdsUpsizeM5Dearer()
    ensures forall k :: k in RdsUpsizeM5() ==>
              && k in RdsPrices() && RdsUpsizeM5()[k] in RdsPrices()
              && RdsPrices()[RdsUpsizeM5()[k]] > RdsPrices()[k]
  {
    assert RdsUpsizeM5().Keys == {"db.m5.large", "db.m5.xlarge"};
  }

  /** Every upsize within a family goes to a listed, strictly dearer type;
      every upsize out of a top burstable type goes to a listed, strictly
      cheaper one. */
  lemma Ec2TopBurstableCheaper()
    ensures forall k :: k in TopBurstableUpsizes(EC2) ==>
              && k in Ec2Prices() && TopBurstableUpsizes(EC2)[k] in Ec2Prices()
              && Ec2Prices()[TopBurstableUpsizes(EC2)[k]] < Ec2Prices()[k]
  {
  }

  lemma RdsTopBurstableCheaper()
    ensures forall k :: k in TopBurstableUpsizes(RDS) ==>
              && k in RdsPrices() && TopBurstableUpsizes(RDS)[k] in RdsPrices()
              && RdsPrices()[TopBurstableUpsizes(RDS)[k]] < RdsPrices()[k]
  {
  }

  /** Every upsize within a family goes to a listed, strictly dearer type. */
  lemma FamilyUpsizesAreDearer(service: Service)
    ensures DearerMoves(service, FamilyUpsizes(service))
  {
    match service
    case EC2 =>
      Ec2UpsizeT3aDearer();
      Ec2UpsizeT3Dearer();
      Ec2UpsizeM5Dearer();
      Ec2UpsizeC5Dearer();
      DearerMovesUnion(EC2, Ec2UpsizeT3a(), Ec2UpsizeT3());
      DearerMovesUnion(EC2, Ec2UpsizeT3a() + Ec2UpsizeT3(), Ec2UpsizeM5());
      DearerMovesUnion(EC2, Ec2UpsizeT3a() + Ec2UpsizeT3() + Ec2UpsizeM5(), Ec2UpsizeC5());
    case RDS =>
      RdsUpsizeT4gDearer();
      RdsUpsizeT3Dearer();
      RdsUpsizeM5Dearer();
      DearerMovesUnion(RDS, RdsUpsizeT4g(), RdsUpsizeT3());
      DearerMovesUnion(RDS, RdsUpsizeT4g() + RdsUpsizeT3(), RdsUpsizeM5());
  }

  /** Every upsize out of a top burstable type goes to a listed, strictly
      cheaper type. */
  lemma TopBurstableUpsizesAreCheaper(service: Service)
    ensures CheaperMoves(service, TopBurstableUpsizes(service))
  {
    match service
    case EC2 => Ec2TopBurstableCheaper();
    case RDS => RdsTopBurstableCheaper();
  }

  lemma Ec2MemoryFromBurstableDearer()
    ensures forall k :: k in Ec2MemoryFromBurstable() ==>
              && k in Ec2Prices() && Ec2MemoryFromBurstable()[k] in Ec2Prices()
              && Ec2Prices()[Ec2MemoryFromBurstable()[k]] > Ec2Prices()[k]
  {
    assert Ec2MemoryFromBurstable().Keys == {"t3.medium", "t3.large", "t3.xlarge", "t3a.medium", "t3a.large", "t3a.xlarge"};
  }
  lemma Ec2MemoryFromM5C5Dearer()
    ensures forall k :: k in Ec2MemoryFromM5C5() ==>
              && k in Ec2Prices() && Ec2MemoryFromM5C5()[k] in Ec2Prices()
              && Ec2Prices()[Ec2MemoryFromM5C5()[k]] > Ec2Prices()[k]
  {
    assert Ec2MemoryFromM5C5().Keys == {"m5.large", "m5.xlarge", "m5.2xlarge", "c5.large", "c5.xlarge"};
  }
  lemma RdsMemoryOptimizedDearer()
    ensures forall k :: k in RdsMemoryOptimized() ==>
              && k in RdsPrices() && RdsMemoryOptimized()[k] in RdsPrices()
              && RdsPrices()[RdsMemoryOptimized()[k]] > RdsPrices()[k]
  {
    assert RdsMemoryOptimized().Keys == {"db.t4g.medium", "db.t4g.large", "db.t3.medium", "db.t3.large", "db.m5.large", "db.m5.xlarge"};
  }

  /** Every memory-optimizing move goes to a different, listed, strictly
      dearer type. */
  lemma MemoryMovesAreDearer(service: Service)
    ensures DearerMoves(service, MemoryOptimizedTable(service))
  {
    match service
    case EC2 =>
      Ec2MemoryFromBurstableDearer();
      Ec2MemoryFromM5C5Dearer();
      DearerMovesUnion(EC2, Ec2MemoryFromBurstable(), Ec2MemoryFromM5C5());
    case RDS =>
      RdsMemoryOptimizedDearer();
  }

  /** A dictionary lookup that returns the key itself on a miss, as
      `table.get(t, t)` does. */
  function LookupOrSelf(table: map<string, string>, t: string): string {
    if t in table then table[t] else t
  }

  /** The next smaller type: a different type exactly when `t` is listed. */
  function SmallerType(t: string, service: Service): (r: string)
    ensures r != t <==> t in DownsizeTable(service)
    ensures t in DownsizeTable(service) ==> r == DownsizeTable(service)[t]
  {
    DownsizesAreCheaper(service);
    LookupOrSelf(DownsizeTable(service), t)
  }

  /** The next larger type: a different type exactly when `t` is listed. */
  function LargerType(t: string, service: Service): (r: string)
    ensures r != t <==> t in UpsizeTable(service)
    ensures t in UpsizeTable(service) ==> r == UpsizeTable(service)[t]
  {
    FamilyUpsizesAreDearer(service);
    TopBurstableUpsizesAreCheaper(service);
    LookupOrSelf(UpsizeTable(service), t)
  }

  /** The memory-optimized counterpart: a different type exactly when `t` is
      listed. */
  function MemoryOptimizedType(t: string, service: Service): (r: string)
    ensures r != t <==> t in MemoryOptimizedTable(service)
    ensures t in MemoryOptimizedTable(service) ==> r == MemoryOptimizedTable(service)[t]
  {
    MemoryMovesAreDearer(service);
    LookupOrSelf(MemoryOptimizedTable(service), t)
  }

  /** The approximate monthly price: the listed price, or the service's flat
      fallback for an unlisted type. Always positive. */
  function MonthlyCost(t: string, service: Service): (price: real)
    ensures price > 0.0
    ensures t !in PriceTable(service) ==> price == FallbackPrice(service)
    ensures t in PriceTable(service) ==> price == PriceTable(service)[t]
  {
    var table := PriceTable(service);
    assert forall k :: k in table ==> table[k] > 0.0;
    if t in table then table[t] else FallbackPrice(service)
  }

  /** The savings of moving from `current` to `recommended`: the price drop,
      clamped at zero. */
  function CostSavings(current: string, recommended: string, service: Service): (savings: real)
    ensures savings >= 0.0
    ensures savings >= MonthlyCost(current, service) - MonthlyCost(recommended, service)
    ensures savings > 0.0 ==> savings == MonthlyCost(current, service) - MonthlyCost(recommended, service)
  {
    var drop := MonthlyCost(current, service) - MonthlyCost(recommended, service);
    if drop > 0.0 then drop else 0.0
  }

  /** The cost increase of moving from `current` to `recommended`: the price
      rise, clamped at zero. */
  function CostIncrease(current: string, recommended: string, service: Service): (increase: real)
    ensures increase >= 0.0
    ensures increase >= MonthlyCost(recommended, service) - MonthlyCost(current, service)
    ensures increase > 0.0 ==> increase == MonthlyCost(recommended, service) - MonthlyCost(current, service)
  {
    var rise := MonthlyCost(recommended, service) - MonthlyCost(current, service);
    if rise > 0.0 then rise else 0.0
  }

  /** At most one of savings and increase is non-zero for any move. */
  lemma SavingsAndIncreaseExclusive(current: string, recommended: string, service: Service)
    ensures CostSavings(current, recommended, service) == 0.0
            || CostIncrease(current, recommended, service) == 0.0
  {
  }

  /** A listed downsize always reports positive savings, and its target is
      priced from the table, never at the fallback. */
  lemma DownsizeAlwaysSaves(t: string, service: Service)
    requires t in DownsizeTable(service)
    ensures SmallerType(t, service) in PriceTable(service)
    ensures CostSavings(t, SmallerType(t, service), service) > 0.0
  {
    DownsizesAreCheaper(service);
  }

  /** A listed memory-optimized move always reports a positive increase. */
  lemma MemoryOptimizationAlwaysCosts(t: string, service: Service)
    requires t in MemoryOptimizedTable(service)
    ensures MemoryOptimizedType(t, service) in PriceTable(service)
    ensures CostIncrease(t, MemoryOptimizedType(t, service), service) > 0.0
  {
    MemoryMovesAreDearer(service);
  }

  /** A listed upsize reports a positive increase except from the top
      burstable types, whose target is cheaper and so reports 0. */
  lemma UpsizeIncreaseIffNotTopBurstable(t: string, service: Service)
    requires t in UpsizeTable(service)
    ensures LargerType(t, service) in PriceTable(service)
    ensures CostIncrease(t, LargerType(t, service), service) > 0.0 <==> t !in TopBurstableUpsizes(service)
  {
    FamilyUpsizesAreDearer(service);
    TopBurstableUpsizesAreCheaper(service);
  }

  /** The worked example: the upsize of a `t3.2xlarge` is an `m5.xlarge`,
      which is cheaper, so the reported increase is 0. */
  lemma T3TwoXlargeUpsizeCostsNothing()
    ensures LargerType("t3.2xlarge", EC2) == "m5.xlarge"
    ensures CostIncrease("t3.2xlarge", "m5.xlarge", EC2) == 0.0
  {
    UpsizeIncreaseIffNotTopBurstable("t3.2xlarge", EC2);
  }

  /** The memory size (GiB) assumed for an EC2 type whose description
      cannot be fetched. */
  function FallbackMemoryTable(): map<string, real> {
    map[
      "t3a.nano" := 0.5, "t3a.micro" := 1.0, "t3a.small" := 2.0, "t3a.medium" := 4.0,
      "t3a.large" := 8.0, "t3a.xlarge" := 16.0,
      "t3.nano" := 0.5, "t3.micro" := 1.0, "t3.small" := 2.0, "t3.medium" := 4.0,
      "t3.large" := 8.0, "t3.xlarge" := 16.0,
      "t2.nano" := 0.5, "t2.micro" := 1.0, "t2.small" := 2.0, "t2.medium" := 4.0, "t2.large" := 8.0,
      "m5.large" := 8.0, "m5.xlarge" := 16.0, "m5.2xlarge" := 32.0, "m5.4xlarge" := 64.0,
      "c5.large" := 4.0, "c5.xlarge" := 8.0, "c5.2xlarge" := 16.0,
      "r5.large" := 16.0, "r5.xlarge" := 32.0, "r5.2xlarge" := 64.0]
  }

  /** The fallback memory size of a type: its listed size, 8 GiB for an
      unlisted type, and positive either way. */
  function FallbackMemoryGiB(t: string): (gib: real)
    ensures gib > 0.0
    ensures t in FallbackMemoryTable() ==> gib == FallbackMemoryTable()[t]
    ensures t !in FallbackMemoryTable() ==> gib == 8.0
  {
    var table := FallbackMemoryTable();
    assert forall k :: k in table ==> table[k] > 0.0;
    if t in table then table[t] else 8.0
  }

  /** The fallback vCPU count: one per 4 GiB of memory, rounded down, and at
      least one. */
  function FallbackVcpus(memoryGiB: real): (vcpus: int)
    requires memoryGiB > 0.0
    ensures vcpus >= 1
    ensures memoryGiB < 4.0 ==> vcpus == 1
    ensures memoryGiB >= 4.0 ==> 4.0 * (vcpus as real) <= memoryGiB < 4.0 * (vcpus as real + 1.0)
  {
    var q := (memoryGiB / 4.0).Floor;
    if q > 1 then q else 1
  }

  /** The worked fallbacks: a sub-4 GiB type gets one vCPU, an unlisted
      type 8 GiB and two, the largest listed M5 64 GiB and sixteen. */
  lemma FallbackSizes()
    ensures FallbackVcpus(FallbackMemoryGiB("t3.nano")) == 1
    ensures FallbackMemoryGiB("x9.huge") == 8.0 && FallbackVcpus(FallbackMemoryGiB("x9.huge")) == 2
    ensures FallbackMemoryGiB("m5.4xlarge") == 64.0 && FallbackVcpus(64.0) == 16
  {
    assert "x9.huge" !in FallbackMemoryTable();
    assert (8.0 / 4.0).Floor == 2;
    assert (64.0 / 4.0).Floor == 16;
  }
}
