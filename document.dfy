/** The document assembler of the Crop2ML extractor (`GetModelDescription`
    in AMEI/Crop2ML.cs): a `ModelUnit` filled group by group from the
    classified members of a model type, then given its fixed identity. */
module Document {
  import opened Wrappers
  import opened Linq
  import opened Text
  import opened Reflection
  import opened Crop2ML

  /** One `Input` entry. `variablecategory` and `parametercategory` are
      null unless set. */
  datatype Input = Input(
    name: string,
    description: string,
    inputtype: string,
    variablecategory: Option<string>,
    parametercategory: Option<string>,
    dataType: string,
    unit: Option<string>)

  /** One `Output` entry. */
  datatype Output = Output(name: string, description: string, variablecategory: string, dataType: string, unit: Option<string>)

  /** One `Function` entry; `functionType` is its `Type`. */
  datatype Function = Function(name: string, functionType: string, description: string, filename: string, language: string)

  /** The header of the document. */
  datatype Description = Description(title: string, authors: string, institution: string, uri: string, shortDescription: string)

  /** The initialization linkage record. */
  datatype Initialization = Initialization(name: string, language: string, filename: string)

  /** The algorithm linkage record. */
  datatype Algorithm = Algorithm(language: string, filename: string)

  /** An exogenous member as an input. */
  function ExogenousInput(m: MemberDetails): Input {
    Input(m.name, m.description, "variable", Some("exogenous"), None, GetDataTypeString(m.dataType), m.unit)
  }

  /** A parameter as an input. */
  function ParameterInput(m: MemberDetails): Input {
    Input(m.name, m.description, "parameter", None, Some("constant"), GetDataTypeString(m.dataType), m.unit)
  }

  /** An input state as an input: its unit is always the empty string. */
  function StateInput(m: MemberDetails): Input {
    Input(m.name, m.description, "variable", Some("state"), None, GetDataTypeString(m.dataType), Some(""))
  }

  /** An output state as an output. */
  function StateOutput(m: MemberDetails): Output {
    Output(m.name, m.description, "state", GetDataTypeString(m.dataType), m.unit)
  }

  /** A method as an external function implemented in `algo/pyx/<name>.pyx`. */
  function ExternalFunction(m: MemberDetails): Function {
    Function(m.name, "external", m.description, "algo/pyx/" + m.name + ".pyx", "cyml")
  }

  /** The inputs made of the exogenous members, the parameters and the
      input states of a type. */
  function Inputs(exo: seq<MemberDetails>, parameters: seq<MemberDetails>, states: seq<MemberDetails>): (r: seq<Input>)
    ensures |r| == |exo| + |parameters| + |states|
  {
    Select(exo, ExogenousInput) + Select(parameters, ParameterInput) + Select(states, StateInput)
  }

  /** The inputs of a type whose exogenous members are `exo`. */
  function InputsOf(t: TypeInfo, exo: seq<MemberDetails>): seq<Input> {
    Inputs(exo, GetParameters(t), GetInputStates(t))
  }

  /** The outputs of a type. */
  function OutputsOf(t: TypeInfo): seq<Output> {
    Select(GetOutputStates(t), StateOutput)
  }

  /** The functions of a type. */
  function FunctionsOf(t: TypeInfo): seq<Function> {
    Select(GetMethods(t), ExternalFunction)
  }

  /** The descriptor document under construction. `inputs` stands for
      `Inputs.Input`, `outputs` for `Outputs.Output` and `functions` for
      `Function`. The identity strings are null in a new unit and are all
      assigned before the extractor returns it; the model starts them
      empty. */
  class ModelUnit {
    var modelid: string
    var name: string
    var timestep: string
    var version: string
    var description: Option<Description>
    var inputs: seq<Input>
    var outputs: seq<Output>
    var functions: seq<Function>
    var initialization: Option<Initialization>
    var algorithm: Option<Algorithm>

    /** A new unit: empty lists, no header and no linkage records. */
    constructor ()
      ensures modelid == "" && name == "" && timestep == "" && version == ""
      ensures description == None && initialization == None && algorithm == None
      ensures inputs == [] && outputs == [] && functions == []
    {
      modelid, name, timestep, version := "", "", "", "";
      description, initialization, algorithm := None, None, None;
      inputs, outputs, functions := [], [], [];
    }

    /** `Inputs.Input.AddRange(xs)`. */
    method AddInputs(xs: seq<Input>)
      modifies this
      ensures inputs == old(inputs) + xs
      ensures outputs == old(outputs) && functions == old(functions)
      ensures modelid == old(modelid) && name == old(name) && timestep == old(timestep) && version == old(version)
      ensures description == old(description) && initialization == old(initialization) && algorithm == old(algorithm)
    {
      inputs := inputs + xs;
    }

    /** `Outputs.Output.AddRange(xs)`. */
    method AddOutputs(xs: seq<Output>)
      modifies this
      ensures outputs == old(outputs) + xs
      ensures inputs == old(inputs) && functions == old(functions)
      ensures modelid == old(modelid) && name == old(name) && timestep == old(timestep) && version == old(version)
      ensures description == old(description) && initialization == old(initialization) && algorithm == old(algorithm)
    {
      outputs := outputs + xs;
    }

    /** `Function.AddRange(xs)`. */
    method AddFunctions(xs: seq<Function>)
      modifies this
      ensures functions == old(functions) + xs
      ensures inputs == old(inputs) && outputs == old(outputs)
      ensures modelid == old(modelid) && name == old(name) && timestep == old(timestep) && version == old(version)
      ensures description == old(description) && initialization == old(initialization) && algorithm == old(algorithm)
    {
      functions := functions + xs;
    }
  }

  /** The member groups of `GetModelDescription`, added in the order
      exogenous inputs, parameters, input states, outputs, functions, once
      the exogenous members `exo` are known. */
  method AddGroups(unit: ModelUnit, t: TypeInfo, exo: seq<MemberDetails>)
    requires unit.inputs == [] && unit.outputs == [] && unit.functions == []
    modifies unit
    ensures unit.inputs == InputsOf(t, exo)
    ensures unit.outputs == OutputsOf(t) && unit.functions == FunctionsOf(t)
    ensures unit.modelid == old(unit.modelid) && unit.name == old(unit.name)
    ensures unit.timestep == old(unit.timestep) && unit.version == old(unit.version)
    ensures unit.description == old(unit.description)
    ensures unit.initialization == old(unit.initialization) && unit.algorithm == old(unit.algorithm)
  {
    var exogenous := Select(exo, ExogenousInput);
    var parameters := Select(GetParameters(t), ParameterInput);
    var states := Select(GetInputStates(t), StateInput);
    unit.AddInputs(exogenous);
    assert unit.inputs == exogenous;
    unit.AddInputs(parameters);
    unit.AddInputs(states);
    unit.AddOutputs(OutputsOf(t));
    assert unit.outputs == OutputsOf(t);
    unit.AddFunctions(FunctionsOf(t));
    assert unit.functions == FunctionsOf(t);
  }

  /** The fixed identity of the unit of type `t`. */
  method SetIdentity(unit: ModelUnit, t: TypeInfo)
    modifies unit
    ensures unit.inputs == old(unit.inputs) && unit.outputs == old(unit.outputs) && unit.functions == old(unit.functions)
    ensures unit.modelid == "AP_" + t.name && unit.name == t.name && unit.timestep == "1" && unit.version == "1.0"
    ensures unit.description == Some(Description(t.name, "APSIM Initiative", "APSIM Initiative", "www.apsim.info", t.summary))
    ensures unit.initialization == Some(Initialization("init_" + t.name, "cyml", "algo/pyx/init." + t.name + ".pyx"))
    ensures unit.algorithm == Some(Algorithm("cyml", "algo/pyx/init." + t.name + ".pyx"))
  {
    unit.modelid := "AP_" + t.name;
    unit.name := t.name;
    unit.timestep := "1";
    unit.version := "1.0";
    unit.description := Some(Description(t.name, "APSIM Initiative", "APSIM Initiative", "www.apsim.info", t.summary));
    unit.initialization := Some(Initialization("init_" + t.name, "cyml", "algo/pyx/init." + t.name + ".pyx"));
    unit.algorithm := Some(Algorithm("cyml", "algo/pyx/init." + t.name + ".pyx"));
  }

  /** `GetModelDescription(type, sourceFileName)`, with the text of the
      source file given as `source`. The lookup exception of the exogenous
      scan propagates and no unit is returned. */
  method GetModelDescription(t: TypeInfo, source: string) returns (r: Result<ModelUnit, Error>)
    ensures r.Failure? <==> GetExogenous(t, source).Failure?
    ensures r.Failure? ==> r.error == GetExogenous(t, source).error
    ensures r.Success? ==> fresh(r.value)
    ensures r.Success? ==> r.value.inputs == InputsOf(t, GetExogenous(t, source).value)
    ensures r.Success? ==> r.value.outputs == OutputsOf(t) && r.value.functions == FunctionsOf(t)
    ensures r.Success? ==> (r.value.modelid == "AP_" + t.name && r.value.name == t.name
                            && r.value.timestep == "1" && r.value.version == "1.0")
    ensures r.Success? ==> (r.value.description
                            == Some(Description(t.name, "APSIM Initiative", "APSIM Initiative", "www.apsim.info", t.summary)))
    ensures r.Success? ==> (r.value.initialization
                            == Some(Initialization("init_" + t.name, "cyml", "algo/pyx/init." + t.name + ".pyx")))
    ensures r.Success? ==> r.value.algorithm == Some(Algorithm("cyml", "algo/pyx/init." + t.name + ".pyx"))
  {
    var unit := new ModelUnit();
    var exo :- GetExogenous(t, source);
    AddGroups(unit, t, exo);
    SetIdentity(unit, t);
    return Success(unit);
  }

  /** The first inputs are the exogenous members, variables of category
      `exogenous` with the name, description and unit of the member. */
  lemma ExogenousInputsTagged(exo: seq<MemberDetails>, parameters: seq<MemberDetails>, states: seq<MemberDetails>, i: nat)
    requires i < |exo|
    ensures i < |Inputs(exo, parameters, states)|
    ensures Inputs(exo, parameters, states)[i].inputtype == "variable"
    ensures Inputs(exo, parameters, states)[i].variablecategory == Some("exogenous")
    ensures Inputs(exo, parameters, states)[i].parametercategory == None
    ensures Inputs(exo, parameters, states)[i].name == exo[i].name
    ensures Inputs(exo, parameters, states)[i].description == exo[i].description
    ensures Inputs(exo, parameters, states)[i].unit == exo[i].unit
    ensures Inputs(exo, parameters, states)[i].dataType == GetDataTypeString(exo[i].dataType)
  {
    var a := Select(exo, ExogenousInput);
    assert Inputs(exo, parameters, states)[i] == a[i];
  }

  /** The parameters follow, of input type `parameter` and parameter
      category `constant`, with the name, description and unit of the
      property. */
  lemma ParameterInputsTagged(exo: seq<MemberDetails>, parameters: seq<MemberDetails>, states: seq<MemberDetails>, i: nat)
    requires |exo| <= i < |exo| + |parameters|
    ensures i < |Inputs(exo, parameters, states)|
    ensures Inputs(exo, parameters, states)[i].inputtype == "parameter"
    ensures Inputs(exo, parameters, states)[i].variablecategory == None
    ensures Inputs(exo, parameters, states)[i].parametercategory == Some("constant")
    ensures Inputs(exo, parameters, states)[i].name == parameters[i - |exo|].name
    ensures Inputs(exo, parameters, states)[i].description == parameters[i - |exo|].description
    ensures Inputs(exo, parameters, states)[i].unit == parameters[i - |exo|].unit
    ensures Inputs(exo, parameters, states)[i].dataType == GetDataTypeString(parameters[i - |exo|].dataType)
  {
    var a := Select(exo, ExogenousInput);
    var b := Select(parameters, ParameterInput);
    var c := Select(states, StateInput);
    assert (a + b + c)[i] == b[i - |a|];
  }

  /** The input states come last, variables of category `state` whose unit
      is always the empty string. */
  lemma StateInputsTagged(exo: seq<MemberDetails>, parameters: seq<MemberDetails>, states: seq<MemberDetails>, i: nat)
    requires |exo| + |parameters| <= i < |exo| + |parameters| + |states|
    ensures i < |Inputs(exo, parameters, states)|
    ensures Inputs(exo, parameters, states)[i].inputtype == "variable"
    ensures Inputs(exo, parameters, states)[i].variablecategory == Some("state")
    ensures Inputs(exo, parameters, states)[i].parametercategory == None
    ensures Inputs(exo, parameters, states)[i].name == states[i - |exo| - |parameters|].name
    ensures Inputs(exo, parameters, states)[i].description == states[i - |exo| - |parameters|].description
    ensures Inputs(exo, parameters, states)[i].unit == Some("")
    ensures Inputs(exo, parameters, states)[i].dataType == GetDataTypeString(states[i - |exo| - |parameters|].dataType)
  {
    var a := Select(exo, ExogenousInput);
    var b := Select(parameters, ParameterInput);
    var c := Select(states, StateInput);
    assert (a + b + c)[i] == c[i - |a| - |b|];
  }

  /** Every data type of an input is a Crop2ML token: upper case and
      without `[]`. */
  lemma InputDataTypesAreTokens(exo: seq<MemberDetails>, parameters: seq<MemberDetails>, states: seq<MemberDetails>, i: nat)
    requires i < |Inputs(exo, parameters, states)|
    ensures IsUpperCase(Inputs(exo, parameters, states)[i].dataType)
    ensures !Contains(Inputs(exo, parameters, states)[i].dataType, "[]")
  {
    var a := Select(exo, ExogenousInput);
    var b := Select(parameters, ParameterInput);
    var c := Select(states, StateInput);
    var n: string;
    if i < |a| {
      assert (a + b + c)[i] == a[i];
      n := exo[i].dataType;
    } else if i < |a| + |b| {
      assert (a + b + c)[i] == b[i - |a|];
      n := parameters[i - |a|].dataType;
    } else {
      assert (a + b + c)[i] == c[i - |a| - |b|];
      n := states[i - |a| - |b|].dataType;
    }
    assert Inputs(exo, parameters, states)[i].dataType == GetDataTypeString(n);
    DataTypeStringIdempotent(n);
  }

  /** Every data type of an output is a Crop2ML token. */
  lemma OutputDataTypesAreTokens(t: TypeInfo, i: nat)
    requires i < |OutputsOf(t)|
    ensures IsUpperCase(OutputsOf(t)[i].dataType) && !Contains(OutputsOf(t)[i].dataType, "[]")
  {
    DataTypeStringIdempotent(GetOutputStates(t)[i].dataType);
  }

  /** Every output is a state; the outputs are the input states, which have
      no unit, followed by the read-only properties with their units; each
      carries the name, description and data-type token of its member. */
  lemma OutputsTagged(t: TypeInfo)
    ensures |OutputsOf(t)| == |GetInputStates(t)| + |OutputProperties(t)|
    ensures forall i :: 0 <= i < |OutputsOf(t)| ==> OutputsOf(t)[i].variablecategory == "state"
    ensures forall i :: 0 <= i < |GetInputStates(t)| ==>
              OutputsOf(t)[i] == Output(GetInputStates(t)[i].name, GetInputStates(t)[i].description, "state",
                                        GetDataTypeString(GetInputStates(t)[i].dataType), None)
    ensures forall i :: 0 <= i < |OutputProperties(t)| ==>
              OutputsOf(t)[|GetInputStates(t)| + i]
              == Output(OutputProperties(t)[i].name, OutputProperties(t)[i].description, "state",
                        GetDataTypeString(OutputProperties(t)[i].dataType), OutputProperties(t)[i].unit)
  {
    forall i | 0 <= i < |GetInputStates(t)|
      ensures OutputsOf(t)[i] == Output(GetInputStates(t)[i].name, GetInputStates(t)[i].description, "state",
                                        GetDataTypeString(GetInputStates(t)[i].dataType), None)
    {
      OutputOfState(t, i);
    }
    forall i | 0 <= i < |OutputProperties(t)|
      ensures OutputsOf(t)[|GetInputStates(t)| + i]
              == Output(OutputProperties(t)[i].name, OutputProperties(t)[i].description, "state",
                        GetDataTypeString(OutputProperties(t)[i].dataType), OutputProperties(t)[i].unit)
    {
      OutputOfProperty(t, i);
    }
  }

  lemma OutputOfState(t: TypeInfo, i: nat)
    requires i < |GetInputStates(t)|
    ensures |OutputsOf(t)| == |GetInputStates(t)| + |OutputProperties(t)|
    ensures OutputsOf(t)[i] == StateOutput(GetInputStates(t)[i])
    ensures GetInputStates(t)[i].unit == None
  {
    assert GetOutputStates(t)[i] == GetInputStates(t)[i];
    var w := Where(t.fields, IsInputState);
    assert GetInputStates(t)[i] == FieldDetails(w[i]);
  }

  lemma OutputOfProperty(t: TypeInfo, i: nat)
    requires i < |OutputProperties(t)|
    ensures |OutputsOf(t)| == |GetInputStates(t)| + |OutputProperties(t)|
    ensures OutputsOf(t)[|GetInputStates(t)| + i] == StateOutput(OutputProperties(t)[i])
  {
    assert GetOutputStates(t)[|GetInputStates(t)| + i] == OutputProperties(t)[i];
  }

  /** Every function is an external `cyml` routine in `algo/pyx/<name>.pyx`
      named after a method of the type that is no property or event
      accessor. */
  lemma FunctionsTagged(t: TypeInfo, i: nat)
    requires i < |FunctionsOf(t)|
    ensures FunctionsOf(t)[i].functionType == "external" && FunctionsOf(t)[i].language == "cyml"
    ensures FunctionsOf(t)[i].filename == "algo/pyx/" + FunctionsOf(t)[i].name + ".pyx"
    ensures exists k :: 0 <= k < |t.methods| && IsFunction(t.methods[k]) && FunctionsOf(t)[i].name == t.methods[k].name
    ensures !StartsWith(FunctionsOf(t)[i].name, "get_") && !StartsWith(FunctionsOf(t)[i].name, "set_")
            && !StartsWith(FunctionsOf(t)[i].name, "add_") && !StartsWith(FunctionsOf(t)[i].name, "remove_")
  {
    var d := GetMethods(t)[i];
    MethodsExactly(t, d);
  }
}
