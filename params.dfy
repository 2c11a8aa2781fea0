/** The parameter bundle every elemental function receives (`ElementalParams`)
    and the records it may hold, with the defaults their declarations give.
    Each record converts to the `Record` value the resolvers walk, its fields
    under their Python names, in declaration order. */
module Params {
  import opened Values

  datatype ProcessInfo = ProcessInfo(processId: string, version: int, runId: Option<string>, sourceSystem: Option<string>)

  datatype Environment = Environment(name: string, debug: bool, region: Option<string>, maxRetries: int)

  /** `timestamp` is a datetime in ticks; its default reads the clock, so callers supply it. */
  datatype Meta = Meta(callId: Option<string>, timestamp: int, config: Entries)

  datatype ElementalParams = ElementalParams(
    params: Entries,
    savepoint: Entries,
    process: Option<ProcessInfo>,
    environment: Option<Environment>,
    meta: Option<Meta>)

  /** `ProcessInfo(process_id=...)`: only the process id is required. */
  function NewProcessInfo(processId: string): (p: ProcessInfo)
    ensures p.processId == processId
    ensures p.version == 1 && p.runId.None? && p.sourceSystem.None?
  {
    ProcessInfo(processId, 1, None, None)
  }

  /** `Environment()`. */
  function NewEnvironment(): (e: Environment)
    ensures e.name == "dev" && !e.debug && e.region.None? && e.maxRetries == 0
  {
    Environment("dev", false, None, 0)
  }

  /** `Meta()`, created at time `now`. */
  function NewMeta(now: int): (m: Meta)
    ensures m.callId.None? && m.timestamp == now && m.config == []
  {
    Meta(None, now, [])
  }

  /** `ElementalParams()`: empty `params` and `savepoint`, no optional record. */
  function NewParams(): (b: ElementalParams)
    ensures b.params == [] && b.savepoint == []
    ensures b.process.None? && b.environment.None? && b.meta.None?
  {
    ElementalParams([], [], None, None, None)
  }

  function OptStr(o: Option<string>): (v: Value)
    ensures o.None? <==> v == Null
    ensures o.Some? ==> v == Str(o.value)
  {
    match o
    case None => Null
    case Some(s) => Str(s)
  }

  function ProcessValue(p: ProcessInfo): (v: Value)
    ensures v.Record? && Keys(v.fields) == ["process_id", "version", "run_id", "source_system"]
  {
    Record("ProcessInfo", [
      ("process_id", Str(p.processId)),
      ("version", Int(p.version)),
      ("run_id", OptStr(p.runId)),
      ("source_system", OptStr(p.sourceSystem))])
  }

  function EnvironmentValue(e: Environment): (v: Value)
    ensures v.Record? && Keys(v.fields) == ["name", "debug", "region", "max_retries"]
  {
    Record("Environment", [
      ("name", Str(e.name)),
      ("debug", Bool(e.debug)),
      ("region", OptStr(e.region)),
      ("max_retries", Int(e.maxRetries))])
  }

  function MetaValue(m: Meta): (v: Value)
    ensures v.Record? && Keys(v.fields) == ["call_id", "timestamp", "config"]
  {
    Record("Meta", [
      ("call_id", OptStr(m.callId)),
      ("timestamp", DateTime(m.timestamp)),
      ("config", Dict(m.config))])
  }

  /** An optional record field: `None` when absent. */
  function OptProcess(o: Option<ProcessInfo>): (v: Value)
    ensures o.None? <==> v == Null
  {
    if o.Some? then ProcessValue(o.value) else Null
  }

  function OptEnvironment(o: Option<Environment>): (v: Value)
    ensures o.None? <==> v == Null
  {
    if o.Some? then EnvironmentValue(o.value) else Null
  }

  function OptMeta(o: Option<Meta>): (v: Value)
    ensures o.None? <==> v == Null
  {
    if o.Some? then MetaValue(o.value) else Null
  }

  /** `params.params.get(k)`: the value under `k`, `None` when absent. */
  function Get(b: ElementalParams, k: string): Value {
    match Lookup(b.params, k)
    case Some(v) => v
    case None => Null
  }

  /** `params.params.get(k) is None`: the key is absent or holds `None`. */
  predicate Missing(b: ElementalParams, k: string) {
    Get(b, k) == Null
  }

  /** The bundle as the root value both resolvers start from. */
  function BundleValue(b: ElementalParams): (v: Value)
    ensures v.Record? && Keys(v.fields) == ["params", "savepoint", "process", "environment", "meta"]
  {
    Record("ElementalParams", BundleFields(b))
  }

  function BundleFields(b: ElementalParams): Entries {
    [("params", Dict(b.params)),
     ("savepoint", Dict(b.savepoint)),
     ("process", OptProcess(b.process)),
     ("environment", OptEnvironment(b.environment)),
     ("meta", OptMeta(b.meta))]
  }

  /** `params.meta.model_dump() if params.meta else None`, the `meta` entry of
      every example function's response. */
  function MetaDump(b: ElementalParams): (v: Value)
    ensures b.meta.None? <==> v == Null
    ensures b.meta.Some? ==> v.Dict? && Keys(v.entries) == ["call_id", "timestamp", "config"]
    ensures !HasRecord(v)
  {
    match b.meta
    case None => Null
    case Some(m) => Dump(MetaValue(m))
  }

  /** The optional records sit under their own names in the bundle, `None` when
      absent (one lemma per field keeps each proof small). */
  lemma BundleParams(b: ElementalParams)
    ensures Lookup(BundleValue(b).fields, "params") == Some(Dict(b.params))
  {
    LookupAt(BundleFields(b), "params", 0);
  }

  lemma BundleSavepoint(b: ElementalParams)
    ensures Lookup(BundleValue(b).fields, "savepoint") == Some(Dict(b.savepoint))
  {
    var fs := BundleFields(b);
    assert |fs[0].0| != |"savepoint"|;
    LookupAt(fs, "savepoint", 1);
  }

  lemma BundleProcess(b: ElementalParams)
    ensures Lookup(BundleValue(b).fields, "process") == Some(OptProcess(b.process))
  {
    var fs := BundleFields(b);
    forall i | 0 <= i < 2 ensures fs[i].0 != "process" {
      assert |fs[i].0| != |"process"|;
    }
    LookupAt(fs, "process", 2);
  }

  lemma BundleEnvironment(b: ElementalParams)
    ensures Lookup(BundleValue(b).fields, "environment") == Some(OptEnvironment(b.environment))
  {
    var fs := BundleFields(b);
    forall i | 0 <= i < 3 ensures fs[i].0 != "environment" {
      assert |fs[i].0| != |"environment"|;
    }
    LookupAt(fs, "environment", 3);
  }

  lemma BundleMeta(b: ElementalParams)
    ensures Lookup(BundleValue(b).fields, "meta") == Some(OptMeta(b.meta))
  {
    var fs := BundleFields(b);
    forall i | 0 <= i < 4 ensures fs[i].0 != "meta" {
      assert |fs[i].0| != |"meta"|;
    }
    LookupAt(fs, "meta", 4);
  }
}
