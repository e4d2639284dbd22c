/** The per-instance rightsizing decision: from the CPU, RAM and (optional)
    disk statistics of one instance over the month, a first-match chain of
    guards picks one of downsize, upsize, memory optimization or storage
    increase, and prices the move with the catalog. */
module Recommender {
  import opened Options
  import opened UtilStats
  import opened InstanceCatalog

  datatype Action = Monitor | Downsize | Upsize | OptimizeMemory | IncreaseStorage

  /** The confidence and priority levels. */
  datatype Level = Low | Medium | High

  /** One recommendation record (its free-text reason is not modelled). */
  datatype Recommendation = Recommendation(
    instanceId: string, name: string, service: Service, currentType: string, dataPoints: nat,
    cpuStats: UtilizationStats, ramStats: UtilizationStats, diskStats: Option<UtilizationStats>,
    action: Action, confidence: Level, priority: Level,
    estimatedMonthlySavings: real, estimatedMonthlyCostIncrease: real, recommendedType: string)

  /** The record every decision starts from: keep monitoring, medium
      confidence, low priority, no cost change, same type. */
  function Default(instanceId: string, name: string, service: Service, currentType: string,
                   cpu: UtilizationStats, ram: UtilizationStats, disk: Option<UtilizationStats>,
                   dataPoints: nat): (r: Recommendation)
    ensures r.action == Monitor && r.confidence == Medium && r.priority == Low
    ensures r.estimatedMonthlySavings == 0.0 && r.estimatedMonthlyCostIncrease == 0.0
    ensures r.recommendedType == currentType
  {
    Recommendation(instanceId, name, service, currentType, dataPoints, cpu, ram, disk,
                   Monitor, Medium, Low, 0.0, 0.0, currentType)
  }

  /** Consistently low CPU and RAM. A statistics record without values has
      no low-usage share; here it counts as 0%. */
  predicate DownsizeGuard(cpu: UtilizationStats, ram: UtilizationStats) {
    && cpu.Avg() < 15.0 && cpu.P95() < 30.0
    && ram.Avg() < 25.0 && ram.P95() < 50.0
    && cpu.LowUsage().GetOr(0.0) > 70.0
  }

  /** Sustained high CPU. */
  predicate UpsizeGuard(cpu: UtilizationStats) {
    cpu.Avg() > 75.0 && cpu.P95() > 90.0 && cpu.HighUsage().GetOr(0.0) > 30.0
  }

  /** Sustained high RAM. */
  predicate MemoryGuard(ram: UtilizationStats) {
    ram.Avg() > 85.0 && ram.P95() > 95.0 && ram.HighUsage().GetOr(0.0) > 25.0
  }

  /** High disk usage, when disk statistics exist at all. */
  predicate StorageGuard(disk: Option<UtilizationStats>) {
    disk.Some? && disk.value.Avg() > 85.0 && disk.value.P95() > 95.0
  }

  /** The downsize branch: move to the next smaller type if there is one,
      with its savings; high priority above 100 a month. */
  function ApplyDownsize(r: Recommendation): Recommendation {
    var t := SmallerType(r.currentType, r.service);
    if t == r.currentType then r
    else
      var savings := CostSavings(r.currentType, t, r.service);
      r.(action := Downsize, recommendedType := t, confidence := High,
         priority := if savings > 100.0 then High else Medium,
         estimatedMonthlySavings := savings)
  }

  /** The upsize branch: move to the next larger type if there is one. */
  function ApplyUpsize(r: Recommendation): Recommendation {
    var t := LargerType(r.currentType, r.service);
    if t == r.currentType then r
    else
      r.(action := Upsize, recommendedType := t, confidence := High, priority := High,
         estimatedMonthlyCostIncrease := CostIncrease(r.currentType, t, r.service))
  }

  /** The memory branch: move to the memory-optimized type if there is one. */
  function ApplyMemory(r: Recommendation): Recommendation {
    var t := MemoryOptimizedType(r.currentType, r.service);
    if t == r.currentType then r
    else
      r.(action := OptimizeMemory, recommendedType := t, confidence := Medium, priority := Medium,
         estimatedMonthlyCostIncrease := CostIncrease(r.currentType, t, r.service))
  }

  /** The storage branch: no type change and no price. */
  function ApplyStorage(r: Recommendation): Recommendation {
    r.(action := IncreaseStorage, confidence := Medium, priority := Medium)
  }

  /** `_generate_instance_recommendation` with the missing-percentage case
      read as 0%. The guards are tried in order and the first that holds
      decides, even when its type table has no entry for the current type;
      a type-changing action is reported exactly when the guard holds and
      the type is listed, savings only for a downsize (always positive),
      an increase only for an upsize or memory move, and a monitoring
      decision is the untouched default. */
  function Classify(instanceId: string, name: string, service: Service, currentType: string,
                    cpu: UtilizationStats, ram: UtilizationStats, disk: Option<UtilizationStats>,
                    dataPoints: nat): (r: Recommendation)
    ensures r.instanceId == instanceId && r.name == name && r.service == service
    ensures r.currentType == currentType && r.dataPoints == dataPoints
    ensures r.cpuStats == cpu && r.ramStats == ram && r.diskStats == disk
    ensures r.action == Downsize <==> DownsizeGuard(cpu, ram) && currentType in DownsizeTable(service)
    ensures r.action == Upsize <==>
              !DownsizeGuard(cpu, ram) && UpsizeGuard(cpu) && currentType in UpsizeTable(service)
    ensures r.action == OptimizeMemory <==>
              && !DownsizeGuard(cpu, ram) && !UpsizeGuard(cpu) && MemoryGuard(ram)
              && currentType in MemoryOptimizedTable(service)
    ensures r.action == IncreaseStorage <==>
              !DownsizeGuard(cpu, ram) && !UpsizeGuard(cpu) && !MemoryGuard(ram) && StorageGuard(disk)
    ensures r.action == Monitor ==> r == Default(instanceId, name, service, currentType, cpu, ram, disk, dataPoints)
    ensures r.recommendedType != currentType <==> r.action in {Downsize, Upsize, OptimizeMemory}
    ensures r.estimatedMonthlySavings >= 0.0 && r.estimatedMonthlyCostIncrease >= 0.0
    ensures r.action != Downsize ==> r.estimatedMonthlySavings == 0.0
    ensures r.action !in {Upsize, OptimizeMemory} ==> r.estimatedMonthlyCostIncrease == 0.0
    // each move goes to its table's entry and is priced from the two types
    ensures r.action == Downsize ==>
              && r.recommendedType == SmallerType(currentType, service)
              && r.estimatedMonthlySavings == CostSavings(currentType, r.recommendedType, service)
    ensures r.action == Upsize ==>
              && r.recommendedType == LargerType(currentType, service)
              && r.estimatedMonthlyCostIncrease == CostIncrease(currentType, r.recommendedType, service)
    ensures r.action == OptimizeMemory ==>
              && r.recommendedType == MemoryOptimizedType(currentType, service)
              && r.estimatedMonthlyCostIncrease == CostIncrease(currentType, r.recommendedType, service)
  {
    var base := Default(instanceId, name, service, currentType, cpu, ram, disk, dataPoints);
    if DownsizeGuard(cpu, ram) then ApplyDownsize(base)
    else if UpsizeGuard(cpu) then ApplyUpsize(base)
    else if MemoryGuard(ram) then ApplyMemory(base)
    else if StorageGuard(disk) then ApplyStorage(base)
    else base
  }

  /** How each action is priced and ranked: a downsize always saves money,
      with high confidence, and is high priority exactly above 100 a month;
      an upsize is high priority and costs more unless it starts at a top
      burstable type, whose M5 target is cheaper; a memory move always costs
      more; a storage increase keeps the type. */
  lemma ActionTerms(instanceId: string, name: string, service: Service, currentType: string,
                    cpu: UtilizationStats, ram: UtilizationStats, disk: Option<UtilizationStats>,
                    dataPoints: nat)
    ensures var r := Classify(instanceId, name, service, currentType, cpu, ram, disk, dataPoints);
      && (r.action == Downsize ==>
            && r.estimatedMonthlySavings > 0.0 && r.confidence == High
            && (r.priority == High <==> r.estimatedMonthlySavings > 100.0))
      && (r.action == Upsize ==>
            && r.confidence == High && r.priority == High
            && (r.estimatedMonthlyCostIncrease > 0.0 <==> currentType !in TopBurstableUpsizes(service)))
      && (r.action == OptimizeMemory ==>
            r.estimatedMonthlyCostIncrease > 0.0 && r.confidence == Medium && r.priority == Medium)
      && (r.action == IncreaseStorage ==> r.confidence == Medium && r.priority == Medium)
  {
    var r := Classify(instanceId, name, service, currentType, cpu, ram, disk, dataPoints);
    if r.action == Downsize {
      DownsizeAlwaysSaves(currentType, service);
    } else if r.action == Upsize {
      UpsizeIncreaseIffNotTopBurstable(currentType, service);
    } else if r.action == OptimizeMemory {
      MemoryOptimizationAlwaysCosts(currentType, service);
    }
  }

  /** The downsize guard's last test as written: it reads the low-usage
      share, which a statistics record without values does not have, so
      the lookup fails (`None`) once the other four tests have passed. */
  function DownsizeGuardAsWritten(cpu: UtilizationStats, ram: UtilizationStats): (g: Option<bool>)
    ensures g.None? <==> cpu.NoValues? && ram.Avg() < 25.0 && ram.P95() < 50.0
    ensures g.Some? ==> g.value == DownsizeGuard(cpu, ram)
  {
    if !(cpu.Avg() < 15.0 && cpu.P95() < 30.0 && ram.Avg() < 25.0 && ram.P95() < 50.0) then Some(false)
    else
      match cpu.LowUsage()
      case None => None
      case Some(pct) => Some(pct > 70.0)
  }

  /** The upsize guard as written: its share lookup is reached only after
      an average above 75, which a record without values never has. */
  function UpsizeGuardAsWritten(cpu: UtilizationStats): (g: Option<bool>)
    ensures g == Some(UpsizeGuard(cpu))
  {
    if !(cpu.Avg() > 75.0 && cpu.P95() > 90.0) then Some(false)
    else
      match cpu.HighUsage()
      case None => None
      case Some(pct) => Some(pct > 30.0)
  }

  /** The memory guard as written; like the upsize guard it never fails. */
  function MemoryGuardAsWritten(ram: UtilizationStats): (g: Option<bool>)
    ensures g == Some(MemoryGuard(ram))
  {
    if !(ram.Avg() > 85.0 && ram.P95() > 95.0) then Some(false)
    else
      match ram.HighUsage()
      case None => None
      case Some(pct) => Some(pct > 25.0)
  }

  /** `_generate_instance_recommendation` as written, `None` standing for
      the `KeyError` it raises. It fails exactly when the CPU column had no
      numbers while RAM looks idle, and otherwise agrees with `Classify`. */
  function ClassifyAsWritten(instanceId: string, name: string, service: Service, currentType: string,
                             cpu: UtilizationStats, ram: UtilizationStats, disk: Option<UtilizationStats>,
                             dataPoints: nat): (r: Option<Recommendation>)
    ensures r.None? <==> cpu.NoValues? && ram.Avg() < 25.0 && ram.P95() < 50.0
    ensures r.Some? ==> r.value == Classify(instanceId, name, service, currentType, cpu, ram, disk, dataPoints)
  {
    var base := Default(instanceId, name, service, currentType, cpu, ram, disk, dataPoints);
    match DownsizeGuardAsWritten(cpu, ram)
    case None => None
    case Some(true) => Some(ApplyDownsize(base))
    case Some(false) =>
      match UpsizeGuardAsWritten(cpu)
      case None => None
      case Some(true) => Some(ApplyUpsize(base))
      case Some(false) =>
        match MemoryGuardAsWritten(ram)
        case None => None
        case Some(true) => Some(ApplyMemory(base))
        case Some(false) => Some(if StorageGuard(disk) then ApplyStorage(base) else base)
  }

  /** An instance whose CPU column holds no number at all and whose RAM is
      idle (here also without numbers) makes the decision as written fail,
      where the corrected decision keeps monitoring. */
  lemma EmptyCpuColumnFails(instanceId: string, name: string, service: Service, currentType: string,
                            dataPoints: nat)
    ensures var cpu, ram := Calculate([None]), Calculate([None]);
      && ClassifyAsWritten(instanceId, name, service, currentType, cpu, ram, None, dataPoints).None?
      && Classify(instanceId, name, service, currentType, cpu, ram, None, dataPoints).action == Monitor
  {
    assert Calculate([None]) == NoValues;
  }
}
