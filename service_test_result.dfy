/**
 * The generated results of rendering one service in a test: the resolved
 * service specification, the raw (unresolved) specification, the scheduler's
 * launch environment, and the rendered config files of every task, each keyed
 * by (pod type, task name, config name).
 *
 * Every field of the object is set once, at construction, and never reassigned.
 * The fields here are values; the Java object instead shares its map and its
 * collection of entries with whoever created it or called its accessors.
 * The one operation with logic is the composite-key lookup `GetTaskConfig`,
 * a linear scan that returns the content of the first entry whose key equals
 * the requested one and otherwise fails with a diagnostic that names the
 * requested key and lists every known entry.
 */
module ServiceTesting {
  import Decimal

  datatype Option<T> = None | Some(value: T)

  /** The result of rendering one config file of one task. */
  datatype TaskConfig = TaskConfig(podType: string, taskName: string, configName: string, configContent: string)
  {
    /**
     * Exact, case-sensitive equality on all three key components: an entry has a
     * key exactly when it is that key with its own content, with no normalisation.
     */
    predicate HasKey(pod: string, task: string, config: string)
      ensures HasKey(pod, task, config) <==> this == TaskConfig(pod, task, config, configContent)
    {
      podType == pod && taskName == task && configName == config
    }

    predicate SameKey(other: TaskConfig) {
      HasKey(other.podType, other.taskName, other.configName)
    }

    /** The diagnostic form `pod-task: config (N bytes)`, N the content's length. */
    function ToString(): (s: string)
      ensures exists digits :: && Decimal.IsCanonical(digits) && Decimal.Value(digits) == |configContent|
                               && s == podType + "-" + taskName + ": " + configName + " (" + digits + " bytes)"
    {
      Decimal.ValueOfFromNat(|configContent|);
      podType + "-" + taskName + ": " + configName + " (" + Decimal.FromNat(|configContent|) + " bytes)"
    }
  }

  /** `x` occurs in `s` starting at index `i`. */
  predicate OccursAt(s: string, x: string, i: nat) {
    i + |x| <= |s| && s[i..i + |x|] == x
  }

  predicate Contains(s: string, x: string) {
    exists i: nat :: i <= |s| && OccursAt(s, x, i)
  }

  lemma OccursAtEnd(p: string, x: string)
    ensures OccursAt(p + x, x, |p|)
  {
    assert (p + x)[|p|..|p| + |x|] == x;
  }

  lemma OccursInExtension(s: string, x: string, i: nat, t: string)
    requires OccursAt(s, x, i)
    ensures OccursAt(s + t, x, i)
  {
    assert (s + t)[i..i + |x|] == s[i..i + |x|];
  }

  /** The renderings of the entries, one per entry, in iteration order. */
  function Renderings(configs: seq<TaskConfig>): (r: seq<string>)
    ensures |r| == |configs|
    ensures forall i :: 0 <= i < |configs| ==> r[i] == configs[i].ToString()
  {
    if configs == [] then [] else [configs[0].ToString()] + Renderings(configs[1..])
  }

  /** The failure of a lookup: the requested key and the listing of every known entry. */
  datatype ConfigNotFound = ConfigNotFound(podType: string, taskName: string, configName: string, knownConfigs: seq<string>)
  {
    /** The message text that precedes the listing of the known entries. */
    function Header(): (s: string)
      ensures Contains(s, podType) && Contains(s, taskName) && Contains(s, configName)
    {
      var podLabel, taskLabel, configLabel := "Unable to find config [pod=", ", task=", ", config=";
      var tail := "]. Known configs are: ";
      var a := podLabel + podType;
      var b := a + taskLabel + taskName;
      var c := b + configLabel + configName;
      // podType starts at |podLabel|, taskName at |a| + |taskLabel|, configName at |b| + |configLabel|
      OccursAtEnd(podLabel, podType);
      OccursAtEnd(a + taskLabel, taskName);
      OccursAtEnd(b + configLabel, configName);
      OccursInExtension(a, podType, |podLabel|, taskLabel + taskName);
      OccursInExtension(b, podType, |podLabel|, configLabel + configName);
      OccursInExtension(b, taskName, |a| + |taskLabel|, configLabel + configName);
      OccursInExtension(c, podType, |podLabel|, tail);
      OccursInExtension(c, taskName, |a| + |taskLabel|, tail);
      OccursInExtension(c, configName, |b| + |configLabel|, tail);
      c + tail
    }
  }

  datatype LookupResult = Found(content: string) | NotFound(error: ConfigNotFound)

  /** Entry `i` has the key and no earlier entry has it. */
  predicate IsFirstMatch(configs: seq<TaskConfig>, i: nat, pod: string, task: string, config: string) {
    && i < |configs|
    && configs[i].HasKey(pod, task, config)
    && forall j :: 0 <= j < i ==> !configs[j].HasKey(pod, task, config)
  }

  /** The index of the first entry with the key, if there is one. */
  function FirstMatch(configs: seq<TaskConfig>, pod: string, task: string, config: string): (r: Option<nat>)
    ensures r.Some? ==> IsFirstMatch(configs, r.value, pod, task, config)
    ensures r.None? ==> forall i :: 0 <= i < |configs| ==> !configs[i].HasKey(pod, task, config)
  {
    if configs == [] then None
    else if configs[0].HasKey(pod, task, config) then Some(0)
    else match FirstMatch(configs[1..], pod, task, config)
      case None => None
      case Some(i) => Some(i + 1)
  }

  /** The first match is unique. */
  lemma FirstMatchUnique(configs: seq<TaskConfig>, i: nat, k: nat, pod: string, task: string, config: string)
    requires IsFirstMatch(configs, i, pod, task, config) && IsFirstMatch(configs, k, pod, task, config)
    ensures i == k
  {
  }

  /** What `GetTaskConfig` computes over the stored entries, as a value. */
  function Lookup(configs: seq<TaskConfig>, pod: string, task: string, config: string): (r: LookupResult)
    ensures r.Found? <==> exists i :: 0 <= i < |configs| && configs[i].HasKey(pod, task, config)
    ensures r.Found? ==> exists i: nat :: IsFirstMatch(configs, i, pod, task, config) && r.content == configs[i].configContent
    ensures r.NotFound? ==> && r.error.podType == pod && r.error.taskName == task && r.error.configName == config
                            && |r.error.knownConfigs| == |configs|
                            && forall i :: 0 <= i < |configs| ==> r.error.knownConfigs[i] == configs[i].ToString()
  {
    match FirstMatch(configs, pod, task, config)
    case Some(i) => Found(configs[i].configContent)
    case None => NotFound(ConfigNotFound(pod, task, config, Renderings(configs)))
  }

  class ServiceTestResult<Spec, RawSpec> {
    const serviceSpec: Spec
    const rawServiceSpec: RawSpec
    const schedulerEnvironment: map<string, string>
    const taskConfigs: seq<TaskConfig>

    constructor (serviceSpec: Spec, rawServiceSpec: RawSpec,
                 schedulerEnvironment: map<string, string>, taskConfigs: seq<TaskConfig>)
      ensures GetServiceSpec() == serviceSpec
      ensures GetRawServiceSpec() == rawServiceSpec
      ensures GetSchedulerEnvironment() == schedulerEnvironment
      ensures this.taskConfigs == taskConfigs
    {
      this.serviceSpec := serviceSpec;
      this.rawServiceSpec := rawServiceSpec;
      this.schedulerEnvironment := schedulerEnvironment;
      this.taskConfigs := taskConfigs;
    }

    function GetServiceSpec(): (s: Spec)
      ensures s == serviceSpec
    {
      serviceSpec
    }

    function GetRawServiceSpec(): (s: RawSpec)
      ensures s == rawServiceSpec
    {
      rawServiceSpec
    }

    function GetSchedulerEnvironment(): (env: map<string, string>)
      ensures env == schedulerEnvironment
    {
      schedulerEnvironment
    }

    /**
     * Scans the entries in order and returns the content of the first one with
     * the key; fails with the key and the listing of all entries otherwise.
     * Changes nothing: the method has no modifies clause and every field is const.
     */
    method GetTaskConfig(podType: string, taskName: string, configName: string) returns (r: LookupResult)
      ensures r == Lookup(taskConfigs, podType, taskName, configName)
    {
      var i := 0;
      while i < |taskConfigs|
        invariant 0 <= i <= |taskConfigs|
        invariant forall j :: 0 <= j < i ==> !taskConfigs[j].HasKey(podType, taskName, configName)
      {
        var config := taskConfigs[i];
        if config.podType == podType && config.taskName == taskName && config.configName == configName {
          ghost var first := FirstMatch(taskConfigs, podType, taskName, configName);
          FirstMatchUnique(taskConfigs, i, first.value, podType, taskName, configName);
          return Found(config.configContent);
        }
        i := i + 1;
      }
      return NotFound(ConfigNotFound(podType, taskName, configName, Renderings(taskConfigs)));
    }
  }

  /** Round trip: an entry that is the first with its key is what the lookup of that key returns. */
  lemma LookupRoundTrip(configs: seq<TaskConfig>, i: nat)
    requires i < |configs|
    requires forall j :: 0 <= j < i ==> !configs[j].SameKey(configs[i])
    ensures Lookup(configs, configs[i].podType, configs[i].taskName, configs[i].configName)
            == Found(configs[i].configContent)
  {
    var e := configs[i];
    var first := FirstMatch(configs, e.podType, e.taskName, e.configName);
    FirstMatchUnique(configs, i, first.value, e.podType, e.taskName, e.configName);
  }

  /** A later entry with the same key as an earlier one is never the match. */
  lemma LaterDuplicateNeverReturned(configs: seq<TaskConfig>, i: nat, j: nat)
    requires i < j < |configs| && configs[i].SameKey(configs[j])
    ensures FirstMatch(configs, configs[j].podType, configs[j].taskName, configs[j].configName) != Some(j)
  {
  }

  /** When the keys happen to be pairwise distinct, every entry round-trips. */
  lemma LookupRoundTripUniqueKeys(configs: seq<TaskConfig>)
    requires forall i, j :: 0 <= i < j < |configs| ==> !configs[i].SameKey(configs[j])
    ensures forall i :: 0 <= i < |configs| ==>
      Lookup(configs, configs[i].podType, configs[i].taskName, configs[i].configName) == Found(configs[i].configContent)
  {
    forall i | 0 <= i < |configs|
      ensures Lookup(configs, configs[i].podType, configs[i].taskName, configs[i].configName) == Found(configs[i].configContent)
    {
      LookupRoundTrip(configs, i);
    }
  }

  /**
   * An entry whose key differs from the requested one in any component takes no part
   * in the search: removing it leaves whether, and with what content, the lookup succeeds.
   */
  lemma NonMatchingEntryIgnored(configs: seq<TaskConfig>, k: nat, pod: string, task: string, config: string)
    requires k < |configs| && !configs[k].HasKey(pod, task, config)
    ensures var rest := configs[..k] + configs[k + 1..];
            Lookup(rest, pod, task, config).Found? == Lookup(configs, pod, task, config).Found?
            && (Lookup(configs, pod, task, config).Found? ==>
                  Lookup(rest, pod, task, config).content == Lookup(configs, pod, task, config).content)
  {
    var rest := configs[..k] + configs[k + 1..];
    // index i of rest is index i of configs when i < k, and i + 1 otherwise
    assert forall i :: 0 <= i < |rest| ==> rest[i] == configs[if i < k then i else i + 1];
    match FirstMatch(configs, pod, task, config)
    case None =>
    case Some(m) =>
      var m' := if m < k then m else m - 1;
      assert rest[m'] == configs[m];
      assert IsFirstMatch(rest, m', pod, task, config) by {
        forall j | 0 <= j < m' ensures !rest[j].HasKey(pod, task, config) {
          assert rest[j] == configs[if j < k then j else j + 1];
        }
      }
      var f := FirstMatch(rest, pod, task, config);
      FirstMatchUnique(rest, m', f.value, pod, task, config);
  }

  /**
   * A lookup fails exactly when no entry has the key, and the failure carries the key and every entry's rendering.
   * This restates the contract of `Lookup` as a single equation on the error value, for callers.
   */
  lemma LookupFailsIffNoMatch(configs: seq<TaskConfig>, pod: string, task: string, config: string)
    ensures Lookup(configs, pod, task, config).NotFound?
            <==> forall i :: 0 <= i < |configs| ==> !configs[i].HasKey(pod, task, config)
    ensures Lookup(configs, pod, task, config).NotFound? ==>
              Lookup(configs, pod, task, config).error == ConfigNotFound(pod, task, config, Renderings(configs))
  {
  }

  /** With no entries every lookup fails, and the listing of known entries is empty. */
  lemma EmptyLookupFails(pod: string, task: string, config: string)
    ensures Lookup([], pod, task, config) == NotFound(ConfigNotFound(pod, task, config, []))
  {
  }

  /**
   * The rendering of an entry is fixed by its key and the length of its content: two
   * entries with the same key render alike exactly when their contents have the same
   * length. The rendering depends on the content only through its length.
   */
  lemma {:induction false} RenderingReportsLength(e1: TaskConfig, e2: TaskConfig)
    requires e1.SameKey(e2)
    ensures e1.ToString() == e2.ToString() <==> |e1.configContent| == |e2.configContent|
  {
    var prefix := e1.podType + "-" + e1.taskName + ": " + e1.configName + " (";
    var suffix := " bytes)";
    var d1 := Decimal.FromNat(|e1.configContent|);
    var d2 := Decimal.FromNat(|e2.configContent|);
    assert e1.ToString() == prefix + d1 + suffix;
    assert e2.ToString() == prefix + d2 + suffix;
    if e1.ToString() == e2.ToString() {
      assert |d1| == |d2|;
      assert d1 == (prefix + d1 + suffix)[|prefix|..|prefix| + |d1|];
      assert d2 == (prefix + d2 + suffix)[|prefix|..|prefix| + |d2|];
      Decimal.FromNatInjective(|e1.configContent|, |e2.configContent|);
    }
  }

  /** An entry whose key differs from the requested one in any component is never the match. */
  lemma MismatchNeverFound(configs: seq<TaskConfig>, i: nat, pod: string, task: string, config: string)
    requires i < |configs|
    requires configs[i].podType != pod || configs[i].taskName != task || configs[i].configName != config
    ensures FirstMatch(configs, pod, task, config) != Some(i)
  {
  }

  /** A single entry is not found under any key that differs from its own in some component. */
  lemma DifferentKeyNotFound(e: TaskConfig, pod: string, task: string, config: string)
    requires pod != e.podType || task != e.taskName || config != e.configName
    ensures Lookup([e], pod, task, config) == NotFound(ConfigNotFound(pod, task, config, [e.ToString()]))
  {
  }

  /** Example of case sensitivity: "Pod" does not find an entry stored under "pod". */
  lemma LookupIsCaseSensitive(content: string)
    ensures Lookup([TaskConfig("pod", "task", "cfg", content)], "Pod", "task", "cfg").NotFound?
  {
    assert "pod"[0] != "Pod"[0];
  }

  /** The two entries of one task used by the scenario lemmas below. */
  function WebServerConfigs(): (configs: seq<TaskConfig>)
    ensures |configs| == 2
  {
    [TaskConfig("web", "server", "app.conf", "PORT=80"), TaskConfig("web", "server", "log.conf", "LEVEL=info")]
  }

  lemma AppConfRendering()
    ensures TaskConfig("web", "server", "app.conf", "PORT=80").ToString() == "web-server: app.conf (7 bytes)"
  {
    assert Decimal.FromNat(7) == "7";
  }

  lemma LogConfRendering()
    ensures TaskConfig("web", "server", "log.conf", "LEVEL=info").ToString() == "web-server: log.conf (10 bytes)"
  {
    assert Decimal.FromNat(10) == Decimal.FromNat(1) + "0" == "10";
  }

  /** Each entry renders with its size in bytes: 7 and 10. */
  lemma WebServerRenderings()
    ensures Renderings(WebServerConfigs()) == ["web-server: app.conf (7 bytes)", "web-server: log.conf (10 bytes)"]
  {
    AppConfRendering();
    LogConfRendering();
  }

  /** A stored config is found by its key. */
  lemma WebServerFound()
    ensures Lookup(WebServerConfigs(), "web", "server", "app.conf") == Found("PORT=80")
  {
    LookupRoundTrip(WebServerConfigs(), 0);
  }

  /** A missing config fails, naming the key and listing both entries with their sizes. */
  lemma WebServerMissing()
    ensures Lookup(WebServerConfigs(), "web", "server", "missing.conf")
            == NotFound(ConfigNotFound("web", "server", "missing.conf",
                                       ["web-server: app.conf (7 bytes)", "web-server: log.conf (10 bytes)"]))
  {
    var configs := WebServerConfigs();
    assert "missing.conf"[0] != "app.conf"[0] && "missing.conf"[0] != "log.conf"[0];
    assert !configs[0].HasKey("web", "server", "missing.conf");
    assert !configs[1].HasKey("web", "server", "missing.conf");
    LookupFailsIffNoMatch(configs, "web", "server", "missing.conf");
    WebServerRenderings();
  }
}
