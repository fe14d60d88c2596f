/** The `Toy1` model of the extractor's unit test as a worked example: its
    two lines that use the `weather` link, the reflection tables of the
    type, and what the extractor makes of them. */
module Toy1 {
  import opened Wrappers
  import opened Linq
  import opened Text
  import opened SourceScan
  import opened Reflection
  import opened Crop2ML
  import opened Document

  /** The indentation of the method body: twelve spaces. */
  const Indent: string := "            "

  /** The saturation vapour pressure call that encloses the first use. */
  const SvpCall: string := "MetUtilities.svp("

  /** The start of the line that computes `VPDmint`, up to the first use. */
  const MinPrefix: string := Indent + "double VPDmint = " + SvpCall

  /** The start of the line that computes `VPDmaxt`, up to the first use. */
  const MaxPrefix: string := Indent + "double VPDmaxt = " + SvpCall

  /** The rest of both lines after the first use. */
  const Difference: string := ") - weather.VP;\n"

  /** Line 45 of the model's source. */
  const MinLine: string := MinPrefix + "weather." + "MinT" + Difference

  /** Line 48 of the model's source. */
  const MaxLine: string := MaxPrefix + "weather." + "MaxT" + Difference

  /** The rest of the line holds one use, of `VP`, four characters in. */
  lemma DifferenceMatches()
    ensures Matches("weather", Difference) == [Match(4, "VP")]
  {
    var name := "weather";
    var tail := ";\n";
    var second := name + "." + "VP" + tail;
    assert Difference == ") - " + second;
    MatchesAfterGap(name, tail, []);
    assert tail + [] == tail;
    MatchesOfUse(name, "VP", tail);
    assert Matches(name, second) == [Match(0, "VP")];
    MatchesAfterGap(name, ") - ", second);
  }

  /** The matches of `weather.x) - weather.VP;`: `x` at the start, `VP`
      twelve characters after it. */
  lemma UseLineMatches(x: string)
    requires |x| > 0 && forall i :: 0 <= i < |x| ==> IsWordChar(x[i])
    ensures var ms := Matches("weather", "weather." + x + Difference);
            |ms| == 2 && ms[0] == Match(0, x) && ms[1] == Match(12 + |x|, "VP")
  {
    assert "weather" + "." == "weather.";
    DifferenceMatches();
    MatchesOfUse("weather", x, Difference);
  }

  /** The matches of `weather.x) - weather.VP;` after a stretch without a `w`. */
  lemma LineMatches(prefix: string, x: string)
    requires 'w' !in prefix
    requires |x| > 0 && forall i :: 0 <= i < |x| ==> IsWordChar(x[i])
    ensures var ms := Matches("weather", prefix + "weather." + x + Difference);
            |ms| == 2 && ms[0] == Match(|prefix|, x) && ms[1] == Match(|prefix| + 12 + |x|, "VP")
  {
    var first := "weather." + x + Difference;
    assert prefix + "weather." + x + Difference == prefix + first;
    UseLineMatches(x);
    MatchesAfterGap("weather", prefix, first);
  }

  /** Neither the link's name nor the rest of the line has a slash. */
  lemma LineHasNoSlash(prefix: string, x: string)
    requires '/' !in prefix
    requires forall i :: 0 <= i < |x| ==> IsWordChar(x[i])
    ensures '/' !in prefix + "weather." + x + Difference
  {
    assert forall i :: 0 <= i < |x| ==> x[i] != '/';
    assert '/' !in "weather.";
    assert '/' !in Difference;
  }

  /** A stretch of text without a `w` and without a slash before
      `weather.x) - weather.VP;` yields the groups `x` and `VP`, in that order. */
  lemma DifferenceLine(prefix: string, x: string)
    requires 'w' !in prefix && '/' !in prefix
    requires |x| > 0 && forall i :: 0 <= i < |x| ==> IsWordChar(x[i])
    ensures SurvivingGroups("weather", prefix + "weather." + x + Difference) == [x, "VP"]
  {
    var s := prefix + "weather." + x + Difference;
    LineMatches(prefix, x);
    LineHasNoSlash(prefix, x);
    var ms := Matches("weather", s);
    MatchesFromSound("weather", s, 0);
    assert PatternAt("weather", s, ms[0].index) && PatternAt("weather", s, ms[1].index);
    AllSurvive(s, ms);
    UseThenVP(Groups(ms), x);
  }

  /** Two groups, `x` and then `VP`. */
  lemma UseThenVP(g: seq<string>, x: string)
    requires |g| == 2 && g[0] == x && g[1] == "VP"
    ensures g == [x, "VP"]
  {
  }

  /** The start of line 45 has neither a `w` nor a slash. */
  lemma MinPrefixPlain()
    ensures 'w' !in MinPrefix && '/' !in MinPrefix
  {
    assert 'w' !in Indent && '/' !in Indent;
    assert 'w' !in SvpCall && '/' !in SvpCall;
    assert 'w' !in "double VPDmint = " && '/' !in "double VPDmint = ";
  }

  /** The start of line 48 has neither a `w` nor a slash. */
  lemma MaxPrefixPlain()
    ensures 'w' !in MaxPrefix && '/' !in MaxPrefix
  {
    assert 'w' !in Indent && '/' !in Indent;
    assert 'w' !in SvpCall && '/' !in SvpCall;
    assert 'w' !in "double VPDmaxt = " && '/' !in "double VPDmaxt = ";
  }

  /** The uses of `weather` on line 45. */
  lemma MinLineGroups()
    ensures SurvivingGroups("weather", MinLine) == ["MinT", "VP"]
  {
    MinPrefixPlain();
    DifferenceLine(MinPrefix, "MinT");
  }

  /** The uses of `weather` on line 48. */
  lemma MaxLineGroups()
    ensures SurvivingGroups("weather", MaxLine) == ["MaxT", "VP"]
  {
    MaxPrefixPlain();
    DifferenceLine(MaxPrefix, "MaxT");
  }

  /** A source cut into five pieces at line ends: the uses are those of the
      pieces, one after the other, deduplicated. */
  lemma FiveParts(name: string, p1: string, p2: string, p3: string, p4: string, p5: string)
    requires '\n' !in name
    requires |p1| > 0 && p1[|p1| - 1] == '\n' && |p2| > 0 && p2[|p2| - 1] == '\n'
    requires |p3| > 0 && p3[|p3| - 1] == '\n' && |p4| > 0 && p4[|p4| - 1] == '\n'
    ensures EnumerateFieldUsage(name, p1 + p2 + p3 + p4 + p5)
         == Distinct(SurvivingGroups(name, p1) + SurvivingGroups(name, p2) + SurvivingGroups(name, p3)
                     + SurvivingGroups(name, p4) + SurvivingGroups(name, p5))
  {
    ScanByLines(name, p1, p2);
    ScanByLines(name, p1 + p2, p3);
    ScanByLines(name, p1 + p2 + p3, p4);
    ScanByLines(name, p1 + p2 + p3 + p4, p5);
  }

  /** Both lines end with a line break. */
  lemma LinesEnd()
    ensures |MinLine| > 0 && MinLine[|MinLine| - 1] == '\n'
    ensures |MaxLine| > 0 && MaxLine[|MaxLine| - 1] == '\n'
  {
    assert Difference[|Difference| - 1] == '\n';
  }

  /** A source made of lines without `weather.` around lines 45 and 48:
      the link is used for `MinT`, `VP` and `MaxT`, each once, in the order
      of first use. */
  lemma Toy1Usage(before: string, between: string, after: string)
    requires |before| > 0 && before[|before| - 1] == '\n'
    requires |between| > 0 && between[|between| - 1] == '\n'
    requires !Contains(before, "weather.") && !Contains(between, "weather.") && !Contains(after, "weather.")
    ensures EnumerateFieldUsage("weather", before + MinLine + between + MaxLine + after) == ["MinT", "VP", "MaxT"]
  {
    var name := "weather";
    assert name + "." == "weather.";
    assert '\n' !in name;
    NoUseNoGroups(name, before);
    NoUseNoGroups(name, between);
    NoUseNoGroups(name, after);
    MinLineGroups();
    MaxLineGroups();
    LinesEnd();
    FiveParts(name, before, MinLine, between, MaxLine, after);
    DistinctOfUses();
  }

  /** Deduplicating the four uses keeps the first three. */
  lemma DistinctOfUses()
    ensures Distinct([] + ["MinT", "VP"] + [] + ["MaxT", "VP"] + []) == ["MinT", "VP", "MaxT"]
  {
    var xs: seq<string> := ["MinT", "VP", "MaxT", "VP"];
    assert [] + ["MinT", "VP"] + [] + ["MaxT", "VP"] + [] == xs;
    assert xs[..3][..2][..1] == ["MinT"];
    assert Distinct(xs[..3][..2][..1]) == ["MinT"];
    assert Distinct(xs[..3][..2]) == ["MinT", "VP"];
    assert Distinct(xs[..3]) == ["MinT", "VP", "MaxT"];
  }

  // ---------------------------------------------------------------------
  // The reflection tables of `Toy1`
  // ---------------------------------------------------------------------

  /** The compiler-generated field behind the auto-property `VPD`. */
  const BackingField: string := "<VPD>k" + "__BackingField"

  /** The private `[Link] IWeather weather` field; `weather` lists the
      properties of `IWeather`. */
  function WeatherLink(weather: seq<PropertyInfo>): FieldInfo {
    FieldInfo("weather", "IWeather", true, false, false, true, "", weather)
  }

  /** The backing field of `VPD`. */
  const VPDBacking: FieldInfo := FieldInfo(BackingField, "Double", false, false, false, true, "", [])

  /** `public double VPD { get; private set; }`: it has a setter, so
      reflection reports it as writable. */
  const VPDProperty: PropertyInfo :=
    PropertyInfo("VPD", "Double", true, false, true, true, Some("hPa"), "Vapour pressure deficit")

  /** The declared methods: the two accessors and the two event handlers. */
  const Toy1Methods: seq<MethodInfo> := [
    MethodInfo("get_VPD", true, ""),
    MethodInfo("set_VPD", true, ""),
    MethodInfo("OnStartOfSimulation", true, "Initialise the model."),
    MethodInfo("OnStartOfDay", true, "Perform daily calculations.")]

  /** The type `Toy1`, with the members it declares itself. */
  function Toy1Type(weather: seq<PropertyInfo>): TypeInfo {
    TypeInfo("Toy1", "Calculates vapour pressure deficit",
      [WeatherLink(weather), VPDBacking], [VPDProperty], Toy1Methods)
  }

  /** `IWeather` declares each of `MinT`, `VP` and `MaxT` once. */
  predicate WeatherDeclaresUses(weather: seq<PropertyInfo>) {
    var f := WeatherLink(weather);
    Declares(f, "MinT") && Declares(f, "VP") && Declares(f, "MaxT")
  }

  /** The backing field is recognised by its name. */
  lemma BackingFieldNamed()
    ensures Contains(BackingField, "__BackingField")
  {
    assert OccursAt(BackingField, "__BackingField", 6);
  }

  /** The only link field is `weather`; no field is an input state. */
  lemma Toy1Fields(weather: seq<PropertyInfo>)
    ensures LinkFields(Toy1Type(weather)) == [WeatherLink(weather)]
    ensures GetInputStates(Toy1Type(weather)) == []
  {
    var fs := [WeatherLink(weather), VPDBacking];
    assert fs[1..][1..] == [];
    BackingFieldNamed();
    assert !IsInputState(VPDBacking);
    assert Where(fs[1..], IsInputState) == [];
    assert Where(fs[1..], IsLinkField) == [];
  }

  /** `VPD` is the one parameter and there is no read-only property. */
  lemma Toy1Properties(weather: seq<PropertyInfo>)
    ensures GetParameters(Toy1Type(weather)) == [MemberDetails("VPD", "Vapour pressure deficit", "Double", Some("hPa"))]
    ensures OutputProperties(Toy1Type(weather)) == []
  {
    assert [VPDProperty][1..] == [];
  }

  /** The accessors of `VPD` are no functions; the two handlers are. */
  lemma Toy1Functions()
    ensures Where(Toy1Methods, IsFunction) == Toy1Methods[2..]
  {
    var ms := Toy1Methods;
    assert StartsWith(ms[0].name, "get_");
    assert StartsWith(ms[1].name, "set_");
    assert ms[2].name[0] == 'O' && ms[3].name[0] == 'O';
    assert IsFunction(ms[2]) && IsFunction(ms[3]);
    assert ms[1..][1..][1..][1..] == [];
    assert ms[1..][1..] == ms[2..];
  }

  /** The three uses, each declared once by `IWeather`, give entries named
      after the interface, in the order of use. */
  lemma WeatherEntries(weather: seq<PropertyInfo>)
    requires WeatherDeclaresUses(weather)
    ensures var r := EntriesFor(WeatherLink(weather), ["MinT", "VP", "MaxT"]);
            && r.Success? && |r.value| == 3
            && r.value[0].name == "IWeather.MinT"
            && r.value[1].name == "IWeather.VP"
            && r.value[2].name == "IWeather.MaxT"
  {
    var f := WeatherLink(weather);
    var used: seq<string> := ["MinT", "VP", "MaxT"];
    assert used[0] == "MinT" && used[1] == "VP" && used[2] == "MaxT";
    assert forall k :: 0 <= k < |used| ==> Declares(f, used[k]);
    EntriesForNames(f, used);
    WhereAll(used, u => Declares(f, u));
    var names := Select(EntriesFor(f, used).value, (e: MemberDetails) => e.name);
    assert |names| == 3;
    assert names[0] == "IWeather" + "." + "MinT";
    assert names[1] == "IWeather" + "." + "VP";
    assert names[2] == "IWeather" + "." + "MaxT";
    QualifiedNames();
  }

  /** The names of the three entries, spelled out. */
  lemma QualifiedNames()
    ensures "IWeather" + "." + "MinT" == "IWeather.MinT"
    ensures "IWeather" + "." + "VP" == "IWeather.VP"
    ensures "IWeather" + "." + "MaxT" == "IWeather.MaxT"
  {
  }

  /** The exogenous inputs of `Toy1` when the source uses `MinT`, `VP` and
      `MaxT` of the link: one entry per use, in that order. */
  lemma Toy1Exogenous(weather: seq<PropertyInfo>, source: string)
    requires WeatherDeclaresUses(weather)
    requires EnumerateFieldUsage("weather", source) == ["MinT", "VP", "MaxT"]
    ensures var r := GetExogenous(Toy1Type(weather), source);
            && r.Success? && |r.value| == 3
            && r.value[0].name == "IWeather.MinT"
            && r.value[1].name == "IWeather.VP"
            && r.value[2].name == "IWeather.MaxT"
  {
    Toy1Fields(weather);
    ExogenousOfOne(WeatherLink(weather), source);
    WeatherEntries(weather);
  }

  /** The parameter `VPD` as an input: a constant in hPa of Crop2ML type
      `DOUBLE`. */
  const VPDInput: Input :=
    Input("VPD", "Vapour pressure deficit", "parameter", None, Some("constant"), "DOUBLE", Some("hPa"))

  /** The details recorded for `VPD`. */
  const VPDDetails: MemberDetails := MemberDetails("VPD", "Vapour pressure deficit", "Double", Some("hPa"))

  /** `VPD` as a parameter input. */
  lemma VPDParameter()
    ensures ParameterInput(VPDDetails) == VPDInput
  {
    DataTypeStringWithoutBrackets("Double");
    UpperDouble();
  }

  /** Three exogenous members and `VPD`, without input states: the inputs
      keep the exogenous names in order and end with the parameter. */
  lemma ThreeAndVPD(exo: seq<MemberDetails>)
    requires |exo| == 3
    ensures var ins := Inputs(exo, [VPDDetails], []);
            && |ins| == 4
            && (forall k :: 0 <= k < 3 ==>
                  (ins[k].name == exo[k].name && ins[k].inputtype == "variable"
                   && ins[k].variablecategory == Some("exogenous")))
            && ins[3] == VPDInput
  {
    var ins := Inputs(exo, [VPDDetails], []);
    assert ins == Select(exo, ExogenousInput) + Select([VPDDetails], ParameterInput) + Select([], StateInput);
    VPDParameter();
    assert ins[3] == ParameterInput(VPDDetails);
  }

  /** The inputs of `Toy1`: the three exogenous uses of the link, then the
      parameter `VPD`; there is no input state. */
  lemma Toy1Inputs(weather: seq<PropertyInfo>, source: string)
    requires WeatherDeclaresUses(weather)
    requires EnumerateFieldUsage("weather", source) == ["MinT", "VP", "MaxT"]
    ensures var t := Toy1Type(weather);
            var exo := GetExogenous(t, source);
            && exo.Success?
            && var ins := InputsOf(t, exo.value);
            && |ins| == 4
            && ins[0].name == "IWeather.MinT" && ins[1].name == "IWeather.VP" && ins[2].name == "IWeather.MaxT"
            && (forall k :: 0 <= k < 3 ==> ins[k].inputtype == "variable" && ins[k].variablecategory == Some("exogenous"))
            && ins[3] == VPDInput
  {
    Toy1Exogenous(weather, source);
    Toy1Fields(weather);
    Toy1Properties(weather);
    ThreeAndVPD(GetExogenous(Toy1Type(weather), source).value);
  }

  /** `Toy1` has no outputs: `VPD` has a setter and so is a parameter, and
      there is no input state to repeat. */
  lemma Toy1Outputs(weather: seq<PropertyInfo>)
    ensures OutputsOf(Toy1Type(weather)) == []
  {
    Toy1Fields(weather);
    Toy1Properties(weather);
  }

  /** The two event handlers become external functions, in declaration
      order. */
  lemma Toy1FunctionEntries(weather: seq<PropertyInfo>)
    ensures var fs := FunctionsOf(Toy1Type(weather));
            && |fs| == 2
            && fs[0] == Function("OnStartOfSimulation", "external", "Initialise the model.",
                                 "algo/pyx/OnStartOfSimulation.pyx", "cyml")
            && fs[1] == Function("OnStartOfDay", "external", "Perform daily calculations.",
                                 "algo/pyx/OnStartOfDay.pyx", "cyml")
  {
    Toy1Functions();
    var fs := FunctionsOf(Toy1Type(weather));
    assert fs == Select(Select(Toy1Methods[2..], MethodDetails), ExternalFunction);
    HandlerFiles();
  }

  /** The file names of the two handlers, spelled out. */
  lemma HandlerFiles()
    ensures "algo/pyx/" + "OnStartOfSimulation" + ".pyx" == "algo/pyx/OnStartOfSimulation.pyx"
    ensures "algo/pyx/" + "OnStartOfDay" + ".pyx" == "algo/pyx/OnStartOfDay.pyx"
  {
  }

  /** What the extractor makes of `Toy1` when the source around lines 45
      and 48 does not use the link: four inputs (`IWeather.MinT`,
      `IWeather.VP`, `IWeather.MaxT` and the parameter `VPD`), no output
      and the two handlers as functions. */
  lemma Toy1Description(weather: seq<PropertyInfo>, before: string, between: string, after: string)
    requires WeatherDeclaresUses(weather)
    requires |before| > 0 && before[|before| - 1] == '\n'
    requires |between| > 0 && between[|between| - 1] == '\n'
    requires !Contains(before, "weather.") && !Contains(between, "weather.") && !Contains(after, "weather.")
    ensures var t := Toy1Type(weather);
            var exo := GetExogenous(t, before + MinLine + between + MaxLine + after);
            && exo.Success?
            && var ins := InputsOf(t, exo.value);
            && |ins| == 4
            && ins[0].name == "IWeather.MinT" && ins[1].name == "IWeather.VP" && ins[2].name == "IWeather.MaxT"
            && ins[3] == VPDInput
            && OutputsOf(t) == []
            && |FunctionsOf(t)| == 2
            && FunctionsOf(t)[0].name == "OnStartOfSimulation" && FunctionsOf(t)[1].name == "OnStartOfDay"
  {
    Toy1Usage(before, between, after);
    Toy1Inputs(weather, before + MinLine + between + MaxLine + after);
    Toy1Outputs(weather);
    Toy1FunctionEntries(weather);
  }
}
