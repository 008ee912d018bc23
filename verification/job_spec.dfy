/** The parts of specification validation and metric lookup that the scheduler's invariants rest on. */
module JobSpecs {
  import opened Wrappers
  import opened Domain

  const MIN_WINDOW := 10_000_000_000
  const MAX_WINDOW := 2_592_000_000_000_000

  /** The prefix of the automatic series. */
  predicate Reserved(name: string) {
    "lcjs/" <= name
  }

  /** The definition of one automatic series. */
  function SystemMetricDefinition(name: string): Option<MetricDefinition> {
    if name == "lcjs/gpu_util" then Some(MetricDefinition(name, FormatPercent))
    else if name == "lcjs/gpu_mem_bytes" || name == "lcjs/rss_bytes" then Some(MetricDefinition(name, FormatBytes))
    else None
  }

  predicate Declares(metrics: seq<MetricDefinition>, name: string) {
    exists i :: 0 <= i < |metrics| && metrics[i].name == name
  }

  predicate ValidMetrics(metrics: seq<MetricDefinition>) {
    && |metrics| <= 64
    && (forall i :: 0 <= i < |metrics| ==> !Reserved(metrics[i].name))
    && (forall i, j :: 0 <= i < j < |metrics| ==> metrics[i].name != metrics[j].name)
  }

  predicate ValidPolicy(spec: JobSpec, policy: HealthPolicy) {
    && (!policy.kind.KindFinished? ==> MIN_WINDOW <= policy.window <= MAX_WINDOW)
    && (policy.kind.KindMetricStalled? ==> Declares(spec.metrics, policy.metric) && policy.minimumDelta >= 0.0)
    && (policy.kind.KindPeriodic? ==> policy.metric == "" && policy.minimumDelta == 0.0)
    && (policy.kind.KindFinished? ==> policy.metric == "" && policy.minimumDelta == 0.0 && policy.window == 0)
  }

  /** What an accepted specification guarantees. */
  predicate ValidSpec(spec: JobSpec) {
    && (forall i :: 0 <= i < |spec.resources.gpus| ==> spec.resources.gpus[i].count > 0)
    && spec.maxAttempts > 0
    && ValidMetrics(spec.metrics)
    && |spec.health| <= 16
    && (forall i :: 0 <= i < |spec.health| ==> ValidPolicy(spec, spec.health[i]))
  }

  /** The values a format admits: a percent metric is a fraction between zero and one, any other is any number. */
  predicate Admitted(format: MetricFormat, value: real) {
    match format
    case FormatPercent => 0.0 <= value && value <= 1.0
    case FormatNumber => true
    case FormatBytes => true
  }

  /** What an accepted policy may say: a window of ten seconds to thirty days, or none for a finished policy. */
  lemma PolicyIsValidIff(spec: JobSpec, policy: HealthPolicy)
    ensures ValidPolicy(spec, policy) <==>
            match policy.kind
            case KindFinished => policy.window == 0 && policy.metric == "" && policy.minimumDelta == 0.0
            case KindPeriodic =>
              10_000_000_000 <= policy.window <= 30 * 24 * 3600 * 1_000_000_000 && policy.metric == "" && policy.minimumDelta == 0.0
            case KindMetricStalled =>
              && 10_000_000_000 <= policy.window <= 30 * 24 * 3600 * 1_000_000_000
              && (exists i :: 0 <= i < |spec.metrics| && spec.metrics[i].name == policy.metric)
              && policy.minimumDelta >= 0.0
  {
  }

  /** What an accepted specification may say. */
  lemma SpecIsValidIff(spec: JobSpec)
    ensures ValidSpec(spec) <==>
            && (forall gpu :: gpu in spec.resources.gpus ==> gpu.count >= 1)
            && spec.maxAttempts >= 1
            && |spec.metrics| <= 64 && |spec.health| <= 16
            && (forall metric :: metric in spec.metrics ==> !(|metric.name| >= 5 && metric.name[..5] == "lcjs/"))
            && (forall i, j :: 0 <= i < j < |spec.metrics| ==> spec.metrics[i].name != spec.metrics[j].name)
            && (forall policy :: policy in spec.health ==> ValidPolicy(spec, policy))
  {
    forall name: string ensures Reserved(name) <==> |name| >= 5 && name[..5] == "lcjs/" {
    }
  }

  /** The automatic series: GPU use is a fraction, the two memory series are bytes, and there are no others. */
  lemma AutomaticSeries(name: string)
    ensures SystemMetricDefinition(name) ==
            if name == "lcjs/gpu_util" then Some(MetricDefinition("lcjs/gpu_util", FormatPercent))
            else if name == "lcjs/gpu_mem_bytes" then Some(MetricDefinition("lcjs/gpu_mem_bytes", FormatBytes))
            else if name == "lcjs/rss_bytes" then Some(MetricDefinition("lcjs/rss_bytes", FormatBytes))
            else None
  {
  }

  /**
   The validation loop: one running set of the metric names accepted so far decides
   duplicates and, afterwards, which metrics a stall policy may name.
   */
  method Validate(spec: JobSpec) returns (ok: bool)
    ensures ok <==> ValidSpec(spec)
  {
    var errors := 0;
    var i := 0;
    while i < |spec.resources.gpus|
      invariant 0 <= i <= |spec.resources.gpus|
      invariant errors >= 0
      invariant errors == 0 <==> forall k :: 0 <= k < i ==> spec.resources.gpus[k].count > 0
    {
      if spec.resources.gpus[i].count == 0 {
        errors := errors + 1;
      }
      i := i + 1;
    }
    if spec.maxAttempts == 0 {
      errors := errors + 1;
    }
    var metricErrors, names := ValidateMetrics(spec.metrics);
    errors := errors + metricErrors;
    if |spec.health| > 16 {
      errors := errors + 1;
    }
    ghost var before := errors;
    i := 0;
    while i < |spec.health|
      invariant 0 <= i <= |spec.health|
      invariant errors >= before
      invariant before == 0 ==> (errors == 0 <==> forall k :: 0 <= k < i ==> ValidPolicy(spec, spec.health[k]))
    {
      var policy := spec.health[i];
      if !policy.kind.KindFinished? && !(MIN_WINDOW <= policy.window <= MAX_WINDOW) {
        errors := errors + 1;
      }
      match policy.kind {
        case KindMetricStalled =>
          if policy.metric !in names || policy.minimumDelta < 0.0 {
            errors := errors + 1;
          }
        case KindPeriodic =>
          if policy.metric != "" || policy.minimumDelta != 0.0 {
            errors := errors + 1;
          }
        case KindFinished =>
          if policy.window != 0 || policy.metric != "" || policy.minimumDelta != 0.0 {
            errors := errors + 1;
          }
      }
      i := i + 1;
    }
    ok := errors == 0;
  }

  method ValidateMetrics(metrics: seq<MetricDefinition>) returns (errors: nat, names: set<string>)
    ensures errors == 0 <==> ValidMetrics(metrics)
    ensures errors == 0 ==> forall name :: name in names <==> Declares(metrics, name)
  {
    errors := if |metrics| > 64 then 1 else 0;
    names := {};
    var i := 0;
    while i < |metrics|
      invariant 0 <= i <= |metrics|
      invariant forall name :: name in names ==> exists k :: 0 <= k < i && metrics[k].name == name
      invariant errors == 0 ==> forall k :: 0 <= k < i ==> metrics[k].name in names
      invariant errors == 0 <==>
        && |metrics| <= 64
        && (forall k :: 0 <= k < i ==> !Reserved(metrics[k].name))
        && (forall k, l :: 0 <= k < l < i ==> metrics[k].name != metrics[l].name)
    {
      if Reserved(metrics[i].name) {
        errors := errors + 1;
      } else if metrics[i].name in names {
        errors := errors + 1;
      } else {
        names := names + {metrics[i].name};
      }
      i := i + 1;
    }
  }

  predicate MetricValueFits(definition: MetricDefinition, value: real) {
    definition.format != FormatPercent || 0.0 <= value <= 1.0
  }

  /** First declared definition of that name, else the automatic series of that name. */
  predicate DefinedMetric(metrics: seq<MetricDefinition>, name: string, value: real) {
    if |metrics| > 0 then
      if metrics[0].name == name then MetricValueFits(metrics[0], value)
      else DefinedMetric(metrics[1..], name, value)
    else
      var system := SystemMetricDefinition(name);
      system.Some? && MetricValueFits(system.value, value)
  }

  /** The definitions of that name, declared or automatic. */
  predicate Defines(metrics: seq<MetricDefinition>, definition: MetricDefinition) {
    definition in metrics || SystemMetricDefinition(definition.name) == Some(definition)
  }

  /**
   For an accepted specification the search order does not matter: the value is admitted
   exactly when some definition, declared or automatic, has that name and scale.
   */
  lemma {:induction false} DefinedMetricIsMembership(metrics: seq<MetricDefinition>, name: string, value: real)
    requires ValidMetrics(metrics)
    ensures DefinedMetric(metrics, name, value) <==>
            exists d: MetricDefinition :: Defines(metrics, d) && d.name == name && Admitted(d.format, value)
  {
    if |metrics| == 0 {
      if DefinedMetric(metrics, name, value) {
        assert Defines(metrics, SystemMetricDefinition(name).value);
      }
    } else {
      var first, rest := metrics[0], metrics[1..];
      DefinedMetricIsMembership(rest, name, value);
      assert forall d :: d in metrics <==> d == first || d in rest;
      if first.name == name {
        assert Defines(metrics, first);
        OnlyDefinition(metrics);
      } else {
        assert forall d: MetricDefinition :: d.name == name ==> (Defines(metrics, d) <==> Defines(rest, d));
      }
    }
  }

  /** In an accepted specification nothing else has the name of the first definition. */
  lemma OnlyDefinition(metrics: seq<MetricDefinition>)
    requires ValidMetrics(metrics) && |metrics| > 0
    ensures forall d: MetricDefinition :: Defines(metrics, d) && d.name == metrics[0].name ==> d == metrics[0]
  {
    assert !Reserved(metrics[0].name);
    assert SystemMetricDefinition(metrics[0].name).None?;
  }
}
