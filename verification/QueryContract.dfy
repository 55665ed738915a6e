/** The filters every analytic read shares: dimensions, conditions, scope of apps. */
module QueryContract {
  import opened Basics

  const DIMENSIONS: seq<string> := [
    "device", "browser", "os", "env", "service", "release", "route", "country", "country_source",
    "source", "client", "runtime", "browser_version", "os_version", "net_type"]

  /** Dimensions with a URL parameter of their own. */
  const PARAM_DIMENSIONS: seq<string> := ["browser", "os", "env", "service", "release", "route", "country"]

  const DEVICES: seq<string> := ["desktop", "mobile", "tablet"]

  const MAX_CONDITIONS := 10
  const DIMENSION_NAME_MAX := 100
  const VALUE_MAX := 500

  datatype Condition =
    | Eq(dimension: string, value: string)
    | Neq(dimension: string, value: string)
    | IsNull(dimension: string)

  /** SQL's three-valued comparison: an unknown value is neither equal nor different. */
  predicate Passes(c: Condition, v: Option<string>) {
    match c
    case Eq(_, x) => v == Some(x)
    case Neq(_, x) => v.Some? && v.value != x
    case IsNull(_) => v.None?
  }

  datatype Filters = Filters(
    device: Option<string>,
    params: map<string, string>,
    includeBots: bool,
    includeInternal: bool,
    segments: seq<Condition>)

  function ParamConditions(params: map<string, string>, names: seq<string>): seq<Condition> {
    if names == [] then []
    else (if names[0] in params then [Eq(names[0], params[names[0]])] else []) + ParamConditions(params, names[1..])
  }

  /** The conditions that do not come from the segment: the device, then the URL parameters. */
  function Dedicated(f: Filters): seq<Condition> {
    (if f.device.Some? then [Eq("device", f.device.value)] else []) + ParamConditions(f.params, PARAM_DIMENSIONS)
  }

  /** `conditionsOf`: the device, the dedicated parameters, then the segment. */
  function ConditionsOf(f: Filters): seq<Condition> {
    Dedicated(f) + f.segments
  }

  /** The apps a query reads: a list, or every app but the internal ones (or but the probes). */
  datatype Scope = Only(apps: set<string>) | AllBut(hidden: set<string>)

  predicate InScope(scope: Scope, app: string) {
    match scope
    case Only(apps) => app in apps
    case AllBut(hidden) => app !in hidden
  }
}
