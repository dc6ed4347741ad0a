/** `SerilogExtensions`: the decisions `AddSerilogConfiguration` takes from
    configuration before any sink is built. They are the `UseSeq`/`SeqUrl`
    guard, the choice of sinks, and the three-tier search for an
    Application Insights connection string. The `Serilog:WriteTo` section
    is given as its children in order: each has a `Name` and an
    `Args:connectionString`. */
module SerilogExtensions {
  import opened Wrappers
  import opened Text
  import opened ConfigurationExtensions

  const AppInsightsEnv: string := "APPLICATIONINSIGHTS_CONNECTION_STRING"
  const InstrumentationKeyKey: string := "ApplicationInsights:InstrumentationKey"
  const IngestionEndpointKey: string := "ApplicationInsights:IngestionEndpoint"
  const LiveEndpointKey: string := "ApplicationInsights:LiveEndpoint"
  const ApplicationIdKey: string := "ApplicationInsights:ApplicationId"
  const UseApplicationInsightsKey: string := "Logging:Providers:UseApplicationInsights"
  const UseSeqKey: string := "Logging:Providers:UseSeq"
  const SeqUrlKey: string := "Logging:Providers:SeqUrl"
  const AppInsightsSinkName: string := "ApplicationInsights"

  /** A child of `Serilog:WriteTo`. */
  datatype SinkSection = SinkSection(name: NullableString, connectionString: NullableString)

  /** Index of the first character `c` in `s`, or `|s|` when there is none. */
  function IndexOf(s: string, c: char): (i: nat)
    ensures i <= |s|
    ensures i < |s| ==> s[i] == c
    ensures forall j :: 0 <= j < i ==> s[j] != c
  {
    if |s| == 0 then 0
    else if s[0] == c then 0
    else 1 + IndexOf(s[1..], c)
  }

  /** `s.Contains(c)` holds exactly when `IndexOf` finds `c`. */
  lemma IndexOfAgreesWithContains(s: string, c: char)
    ensures ContainsChar(s, c) <==> IndexOf(s, c) < |s|
  {
  }

  /** `parts` joined with the separator `c` between neighbours. */
  function Join(parts: seq<string>, c: char): string {
    if |parts| == 0 then ""
    else if |parts| == 1 then parts[0]
    else parts[0] + [c] + Join(parts[1..], c)
  }

  /** `s.Split(c)`: the pieces between separators; joining them back gives
      `s`, and no piece holds the separator. */
  function Split(s: string, c: char): (parts: seq<string>)
    ensures |parts| >= 1
    ensures forall k :: 0 <= k < |parts| ==> c !in parts[k]
    ensures Join(parts, c) == s
    decreases |s|
  {
    var i := IndexOf(s, c);
    if i == |s| then [s]
    else
      var rest := Split(s[i + 1..], c);
      assert s == s[..i] + [c] + s[i + 1..];
      [s[..i]] + rest
  }

  /** Splitting undoes joining when no piece holds the separator. */
  lemma {:induction false} SplitJoin(parts: seq<string>, c: char)
    requires |parts| >= 1
    requires forall k :: 0 <= k < |parts| ==> c !in parts[k]
    ensures Split(Join(parts, c), c) == parts
  {
    if |parts| > 1 {
      var s := Join(parts, c);
      var head := parts[0];
      assert s == head + [c] + Join(parts[1..], c);
      assert IndexOf(s, c) == |head| by {
        IndexOfPrefix(head, Join(parts[1..], c), c);
      }
      assert s[..|head|] == head;
      assert s[|head| + 1..] == Join(parts[1..], c);
      SplitJoin(parts[1..], c);
      assert parts == [head] + parts[1..];
    }
  }

  /** The first separator of `a + [c] + b` ends `a` when `a` has none. */
  lemma IndexOfPrefix(a: string, b: string, c: char)
    requires c !in a
    ensures IndexOf(a + [c] + b, c) == |a|
  {
    var s := a + [c] + b;
    assert s[|a|] == c;
  }

  /** One `key=value` segment. */
  function Segment(key: string, value: string): string {
    key + "=" + value
  }

  /** A segment read back: the text before the first `=`, and after it. */
  function KeyValue(segment: string): (string, string) {
    var i := IndexOf(segment, '=');
    if i == |segment| then (segment, "") else (segment[..i], segment[i + 1..])
  }

  /** A connection string read back as its key/value pairs. */
  function ParseConnectionString(s: string): seq<(string, string)> {
    var segments := Split(s, ';');
    seq(|segments|, k requires 0 <= k < |segments| => KeyValue(segments[k]))
  }

  lemma KeyValueOfSegment(key: string, value: string)
    requires '=' !in key
    ensures KeyValue(Segment(key, value)) == (key, value)
  {
    var s := Segment(key, value);
    IndexOfPrefix(key, value, '=');
    assert s == key + ['='] + value;
    assert s[..|key|] == key;
    assert s[|key| + 1..] == value;
  }

  /** The pairs the Application Insights section contributes: the key and
      the endpoint always, the live endpoint and application id only when
      they are not blank. */
  function SectionPairs(ik: string, ie: string, le: NullableString, ai: NullableString): seq<(string, string)> {
    [("InstrumentationKey", ik), ("IngestionEndpoint", ie)]
    + (if IsNullOrWhiteSpace(le) then [] else [("LiveEndpoint", le.value)])
    + (if IsNullOrWhiteSpace(ai) then [] else [("ApplicationId", ai.value)])
  }

  /** `cs += ";key=value"`, done only when the value is not blank. */
  function AppendSegment(cs: string, key: string, v: NullableString): (r: string)
    ensures |r| >= |cs| && r[..|cs|] == cs
  {
    if IsNullOrWhiteSpace(v) then cs else cs + ";" + Segment(key, v.value)
  }

  /** The connection string built from the Application Insights section: the
      instrumentation key and ingestion endpoint, then the live endpoint and
      then the application id, each only when not blank. */
  function Compose(ik: string, ie: string, le: NullableString, ai: NullableString): (cs: string)
    ensures |cs| >= |"InstrumentationKey="| && cs[..|"InstrumentationKey="|] == "InstrumentationKey="
  {
    var cs := Segment("InstrumentationKey", ik) + ";" + Segment("IngestionEndpoint", ie);
    assert cs[..|"InstrumentationKey="|] == "InstrumentationKey=";
    var cs' := AppendSegment(cs, "LiveEndpoint", le);
    assert cs'[..|"InstrumentationKey="|] == "InstrumentationKey=";
    AppendSegment(cs', "ApplicationId", ai)
  }

  /** The segment for an optional value: none when the value is blank. */
  function OptionalSegment(key: string, v: NullableString): seq<string> {
    if IsNullOrWhiteSpace(v) then [] else [Segment(key, v.value)]
  }

  /** The segments `Compose` joins with `;`. */
  function Segments(ik: string, ie: string, le: NullableString, ai: NullableString): seq<string> {
    [Segment("InstrumentationKey", ik), Segment("IngestionEndpoint", ie)]
    + OptionalSegment("LiveEndpoint", le)
    + OptionalSegment("ApplicationId", ai)
  }

  lemma ComposeJoinsSegments(ik: string, ie: string, le: NullableString, ai: NullableString)
    ensures Compose(ik, ie, le, ai) == Join(Segments(ik, ie, le, ai), ';')
  {
    var a := Segment("InstrumentationKey", ik);
    var b := Segment("IngestionEndpoint", ie);
    JoinTwo(a, b);
    AppendIfPresent([a, b], "LiveEndpoint", le);
    AppendIfPresent([a, b] + OptionalSegment("LiveEndpoint", le), "ApplicationId", ai);
  }

  /** Appending an optional segment to the parts appends it to the join. */
  lemma AppendIfPresent(parts: seq<string>, key: string, v: NullableString)
    requires |parts| >= 1
    ensures Join(parts + OptionalSegment(key, v), ';') == AppendSegment(Join(parts, ';'), key, v)
  {
    if IsNullOrWhiteSpace(v) {
      assert parts + [] == parts;
    } else {
      JoinAppend(parts, Segment(key, v.value));
    }
  }

  lemma JoinTwo(a: string, b: string)
    ensures Join([a, b], ';') == a + [';'] + b
  {
    assert [a, b][1..] == [b];
  }

  /** Appending a piece appends the separator and the piece. */
  lemma {:induction false} JoinAppend(parts: seq<string>, last: string)
    requires |parts| >= 1
    ensures Join(parts + [last], ';') == Join(parts, ';') + [';'] + last
  {
    if |parts| == 1 {
      JoinTwo(parts[0], last);
    } else {
      assert (parts + [last])[1..] == parts[1..] + [last];
      JoinAppend(parts[1..], last);
    }
  }

  /** Round trip: when no value holds `;`, reading the composed connection
      string back gives exactly the pairs of the section, in order. */
  lemma {:induction false} ComposeParsesBack(ik: string, ie: string, le: NullableString, ai: NullableString)
    requires ';' !in ik && ';' !in ie
    requires le.Some? ==> ';' !in le.value
    requires ai.Some? ==> ';' !in ai.value
    ensures ParseConnectionString(Compose(ik, ie, le, ai)) == SectionPairs(ik, ie, le, ai)
  {
    var segs := Segments(ik, ie, le, ai);
    ComposeJoinsSegments(ik, ie, le, ai);
    forall k | 0 <= k < |segs| ensures ';' !in segs[k] {
      NoSeparatorInSegment(segs, k, ik, ie, le, ai);
    }
    SplitJoin(segs, ';');
    var pairs := SectionPairs(ik, ie, le, ai);
    assert |segs| == |pairs|;
    forall k | 0 <= k < |segs| ensures KeyValue(segs[k]) == pairs[k] {
      SegmentReadsBack(k, ik, ie, le, ai);
    }
  }

  lemma NoSeparatorInSegment(segs: seq<string>, k: nat, ik: string, ie: string, le: NullableString, ai: NullableString)
    requires segs == Segments(ik, ie, le, ai) && k < |segs|
    requires ';' !in ik && ';' !in ie
    requires le.Some? ==> ';' !in le.value
    requires ai.Some? ==> ';' !in ai.value
    ensures ';' !in segs[k]
  {
    var pairs := SectionPairs(ik, ie, le, ai);
    assert segs[k] == Segment(pairs[k].0, pairs[k].1);
    assert ';' !in pairs[k].0;
    assert ';' !in pairs[k].1;
  }

  lemma SegmentReadsBack(k: nat, ik: string, ie: string, le: NullableString, ai: NullableString)
    requires k < |SectionPairs(ik, ie, le, ai)|
    ensures |Segments(ik, ie, le, ai)| == |SectionPairs(ik, ie, le, ai)|
    ensures KeyValue(Segments(ik, ie, le, ai)[k]) == SectionPairs(ik, ie, le, ai)[k]
  {
    var pairs := SectionPairs(ik, ie, le, ai);
    assert Segments(ik, ie, le, ai)[k] == Segment(pairs[k].0, pairs[k].1);
    assert '=' !in pairs[k].0 by {
      if '=' in pairs[k].0 {
        var j :| 0 <= j < |pairs[k].0| && pairs[k].0[j] == '=';
      }
    }
    KeyValueOfSegment(pairs[k].0, pairs[k].1);
  }

  /** `FirstOrDefault(x => x.Name == name)`: the position of the first child
      with that name, or none when no child has it. */
  function FirstNamed(children: seq<SinkSection>, name: string): (i: Option<nat>)
    ensures i.Some? ==> i.value < |children| && children[i.value].name == Some(name)
    ensures i.Some? ==> forall j :: 0 <= j < i.value ==> children[j].name != Some(name)
    ensures i.None? <==> forall j :: 0 <= j < |children| ==> children[j].name != Some(name)
  {
    if |children| == 0 then None
    else if children[0].name == Some(name) then Some(0)
    else
      match FirstNamed(children[1..], name)
      case None => None
      case Some(k) => Some(k + 1)
  }

  /** First tier: a non-blank `APPLICATIONINSIGHTS_CONNECTION_STRING`. */
  function EnvironmentTier(env: Settings): (r: Option<string>)
    ensures r.Some? <==> AppInsightsEnv in env && !AllWhiteSpace(env[AppInsightsEnv])
    ensures r.Some? ==> r.value == env[AppInsightsEnv]
  {
    var cs := Lookup(env, AppInsightsEnv);
    if !IsNullOrWhiteSpace(cs) then cs else None
  }

  /** Second tier: the `ApplicationInsights` section, when both its
      instrumentation key and ingestion endpoint are not blank. */
  function SectionTier(config: Settings): (r: Option<string>)
    ensures r.Some? <==> !IsNullOrWhiteSpace(Lookup(config, InstrumentationKeyKey))
                         && !IsNullOrWhiteSpace(Lookup(config, IngestionEndpointKey))
    ensures r.Some? ==> r.value == Compose(config[InstrumentationKeyKey], config[IngestionEndpointKey],
                                           Lookup(config, LiveEndpointKey), Lookup(config, ApplicationIdKey))
  {
    var ik := Lookup(config, InstrumentationKeyKey);
    var ie := Lookup(config, IngestionEndpointKey);
    if !IsNullOrWhiteSpace(ik) && !IsNullOrWhiteSpace(ie) then
      Some(Compose(ik.value, ie.value, Lookup(config, LiveEndpointKey), Lookup(config, ApplicationIdKey)))
    else None
  }

  /** Third tier: the connection string of the first `WriteTo` child named
      `ApplicationInsights`, when it is not blank and holds no `{` or `}`
      (an unexpanded placeholder). Later children with that name are never
      consulted. */
  function SinkTier(writeTo: seq<SinkSection>): (r: Option<string>)
    ensures r.Some? <==> exists i :: 0 <= i < |writeTo| && FirstNamed(writeTo, AppInsightsSinkName) == Some(i)
                                     && UsableSinkString(writeTo[i].connectionString)
    ensures r.Some? ==> r == writeTo[FirstNamed(writeTo, AppInsightsSinkName).value].connectionString
    ensures r.Some? ==> !AllWhiteSpace(r.value) && !ContainsChar(r.value, '{') && !ContainsChar(r.value, '}')
  {
    match FirstNamed(writeTo, AppInsightsSinkName)
    case None => None
    case Some(i) =>
      var raw := writeTo[i].connectionString;
      if UsableSinkString(raw) then raw else None
  }

  predicate UsableSinkString(raw: NullableString) {
    !IsNullOrWhiteSpace(raw) && !ContainsChar(raw.value, '{') && !ContainsChar(raw.value, '}')
  }

  /** `GetAppInsightsConnectionString`: the first tier that yields a value,
      in the order environment, section, sink; otherwise the empty string.
      The result is empty exactly when no tier yields, and a non-empty
      result is never blank. */
  function GetAppInsightsConnectionString(env: Settings, config: Settings, writeTo: seq<SinkSection>): (r: string)
    ensures EnvironmentTier(env).Some? ==> r == env[AppInsightsEnv]
    ensures EnvironmentTier(env).None? && SectionTier(config).Some? ==> r == SectionTier(config).value
    ensures EnvironmentTier(env).None? && SectionTier(config).None? ==> r == SinkTier(writeTo).GetOr("")
    ensures r == "" <==> EnvironmentTier(env).None? && SectionTier(config).None? && SinkTier(writeTo).None?
    ensures r != "" ==> !AllWhiteSpace(r)
  {
    match EnvironmentTier(env)
    case Some(cs) => cs
    case None =>
      match SectionTier(config)
      case Some(cs) =>
        ComposeIsNotBlank(cs);
        cs
      case None =>
        SinkTier(writeTo).GetOr("")
  }

  lemma ComposeIsNotBlank(cs: string)
    requires |cs| >= |"InstrumentationKey="| && cs[..|"InstrumentationKey="|] == "InstrumentationKey="
    ensures cs != "" && !AllWhiteSpace(cs)
  {
    assert cs[0] == 'I';
  }

  /** The failures of `AddSerilogConfiguration` before any registration: a
      provider switch that does not parse as a boolean, or Seq switched on
      without a server address. */
  datatype LoggingError = InvalidSwitch(key: string) | SeqUrlMissing

  /** `GetValue<bool>(key, false)`: false when the key is absent, otherwise
      the parsed value; `parse` is the framework's boolean converter. */
  function GetSwitch(config: Settings, key: string, parse: string -> Option<bool>): (r: Result<bool, LoggingError>)
    ensures key !in config ==> r == Success(false)
    ensures key in config ==> (r.Success? <==> parse(config[key]).Some?)
    ensures r.Success? && key in config ==> r.value == parse(config[key]).value
    ensures r.Failure? ==> r.error == InvalidSwitch(key)
  {
    if key !in config then Success(false)
    else match parse(config[key])
      case Some(b) => Success(b)
      case None => Failure(InvalidSwitch(key))
  }

  /** The Application Insights sink: not configured, configured with a
      connection string, or enabled without one (a warning is logged). */
  datatype AppInsightsSink = NotConfigured | Sink(connectionString: string) | MissingConnectionWarning

  /** What `AddSerilogConfiguration` sets up: whether the telemetry service
      is registered, the Seq server address if a Seq sink is added, and the
      Application Insights sink. The console sink is always present. */
  datatype LoggingPlan = LoggingPlan(telemetry: bool, seqServerUrl: Option<string>, appInsights: AppInsightsSink)

  /** `AddSerilogConfiguration`, as the decisions it takes. */
  function PlanLogging(env: Settings, config: Settings, writeTo: seq<SinkSection>, parse: string -> Option<bool>)
    : (r: Result<LoggingPlan, LoggingError>)
    ensures r.Success? <==>
      && GetSwitch(config, UseApplicationInsightsKey, parse).Success?
      && GetSwitch(config, UseSeqKey, parse).Success?
      && !(GetSwitch(config, UseSeqKey, parse).value && IsNullOrWhiteSpace(Lookup(config, SeqUrlKey)))
    ensures r.Success? ==>
      && (r.value.telemetry <==> GetSwitch(config, UseApplicationInsightsKey, parse).value)
      && (r.value.seqServerUrl.Some? <==> GetSwitch(config, UseSeqKey, parse).value)
      && (r.value.appInsights.NotConfigured? <==> !r.value.telemetry)
    ensures r.Success? && r.value.seqServerUrl.Some? ==>
      SeqUrlKey in config && r.value.seqServerUrl.value == config[SeqUrlKey]
      && !AllWhiteSpace(r.value.seqServerUrl.value)
    ensures r.Success? && r.value.appInsights.Sink? ==>
      r.value.appInsights.connectionString == GetAppInsightsConnectionString(env, config, writeTo)
      && !AllWhiteSpace(r.value.appInsights.connectionString)
    ensures r.Success? && r.value.appInsights.MissingConnectionWarning? ==>
      GetAppInsightsConnectionString(env, config, writeTo) == ""
  {
    match GetSwitch(config, UseApplicationInsightsKey, parse)
    case Failure(e) => Failure(e)
    case Success(useApplicationInsights) =>
      match GetSwitch(config, UseSeqKey, parse)
      case Failure(e) => Failure(e)
      case Success(useSeq) =>
        var seqUrl := Lookup(config, SeqUrlKey);
        if useSeq && IsNullOrWhiteSpace(seqUrl) then Failure(SeqUrlMissing)
        else
          var appInsights :=
            if !useApplicationInsights then NotConfigured
            else
              var cs := GetAppInsightsConnectionString(env, config, writeTo);
              if !AllWhiteSpace(cs) then Sink(cs) else MissingConnectionWarning;
          Success(LoggingPlan(useApplicationInsights, if useSeq then seqUrl else None, appInsights))
  }

  /** The Seq guard fires before anything is registered: with Seq switched
      on and no usable address, no environment and no sink list makes the
      configuration succeed. */
  lemma SeqGuard(env: Settings, config: Settings, writeTo: seq<SinkSection>, parse: string -> Option<bool>)
    requires GetSwitch(config, UseApplicationInsightsKey, parse).Success?
    requires GetSwitch(config, UseSeqKey, parse) == Success(true)
    requires IsNullOrWhiteSpace(Lookup(config, SeqUrlKey))
    ensures PlanLogging(env, config, writeTo, parse) == Failure(SeqUrlMissing)
  {
  }
}
