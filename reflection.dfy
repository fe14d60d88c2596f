/** The reflection metadata the Crop2ML extractor reads from a model type,
    given explicitly: the member tables that `Type.GetFields`,
    `Type.GetProperties`, `Type.GetMethods` and `GetCustomAttribute` would
    report, with the documentation summary and the `[Units]` text of each
    member stored beside it. */
module Reflection {
  import opened Wrappers
  import opened Linq

  /** A property as reflection reports it. `typeName` is `PropertyType.Name`
      (for example `Double` or `Double[]`); `canWrite` is `CanWrite`, which
      is true whenever a setter exists, private or not; `units` is the text
      of its `[Units]` attribute, if any; `summary` is its XML documentation
      summary. */
  datatype PropertyInfo = PropertyInfo(
    name: string,
    typeName: string,
    isPublic: bool,
    isStatic: bool,
    isDeclared: bool,
    canWrite: bool,
    units: Option<string>,
    summary: string)

  /** A field as reflection reports it. `isLink` says that it carries a
      `[Link]` attribute; `typeName` is `FieldType.Name`; `collaborator`
      is the property table of its field type, as `FieldType.GetProperty`
      searches it. */
  datatype FieldInfo = FieldInfo(
    name: string,
    typeName: string,
    isLink: bool,
    isPublic: bool,
    isStatic: bool,
    isDeclared: bool,
    summary: string,
    collaborator: seq<PropertyInfo>)

  /** A method as reflection reports it (property accessors such as
      `get_X` and `set_X` included). */
  datatype MethodInfo = MethodInfo(name: string, isDeclared: bool, summary: string)

  /** A model type: its name, its summary and its member tables. */
  datatype TypeInfo = TypeInfo(
    name: string,
    summary: string,
    fields: seq<FieldInfo>,
    properties: seq<PropertyInfo>,
    methods: seq<MethodInfo>)

  /** The exception reflection throws: more than one property of the type
      has the name looked up (`AmbiguousMatchException`). */
  datatype Error = AmbiguousMatch(typeName: string, memberName: string)

  /** An instance property with the given name. */
  predicate IsInstanceNamed(p: PropertyInfo, name: string) {
    p.name == name && !p.isStatic
  }

  /** The instance properties of a table with the given name, in table order. */
  function InstanceNamed(props: seq<PropertyInfo>, name: string): seq<PropertyInfo> {
    Where(props, p => IsInstanceNamed(p, name))
  }

  /** `type.GetProperty(name, Public | NonPublic | Instance | FlattenHierarchy)`:
      the one instance property with that name, null when there is none,
      and an exception when there are several. */
  function GetProperty(typeName: string, props: seq<PropertyInfo>, name: string): (r: Result<Option<PropertyInfo>, Error>)
    ensures r.Failure? <==> |InstanceNamed(props, name)| > 1
    ensures r.Failure? ==> r.error == AmbiguousMatch(typeName, name)
    ensures r.Success? && r.value.Some? ==> r.value.value in props && IsInstanceNamed(r.value.value, name)
  {
    var hits := InstanceNamed(props, name);
    if |hits| == 0 then Success(None)
    else if |hits| == 1 then Success(Some(hits[0]))
    else Failure(AmbiguousMatch(typeName, name))
  }

  /** The lookup finds nothing exactly when no instance property of the
      table has the name. */
  lemma GetPropertyNone(typeName: string, props: seq<PropertyInfo>, name: string)
    ensures GetProperty(typeName, props, name) == Success(None)
        <==> forall i :: 0 <= i < |props| ==> !IsInstanceNamed(props[i], name)
  {
    if forall i :: 0 <= i < |props| ==> !IsInstanceNamed(props[i], name) {
      NoneNamed(props, name);
    }
    if GetProperty(typeName, props, name) == Success(None) {
      forall i | 0 <= i < |props| ensures !IsInstanceNamed(props[i], name) {
        if IsInstanceNamed(props[i], name) {
          WhereComplete(props, p => IsInstanceNamed(p, name), i);
        }
      }
    }
  }

  /** A table in which the names of instance properties are unique never
      makes the lookup throw, and the lookup then returns the property of
      that name. */
  lemma GetPropertyUnique(typeName: string, props: seq<PropertyInfo>, name: string, i: nat)
    requires i < |props| && IsInstanceNamed(props[i], name)
    requires forall j :: 0 <= j < |props| && j != i ==> !IsInstanceNamed(props[j], name)
    ensures GetProperty(typeName, props, name) == Success(Some(props[i]))
  {
    InstanceNamedSingle(props, name, i);
  }

  /** Filtering a table with a single instance property of that name leaves
      exactly that property. */
  lemma {:induction false} InstanceNamedSingle(props: seq<PropertyInfo>, name: string, i: nat)
    requires i < |props| && IsInstanceNamed(props[i], name)
    requires forall j :: 0 <= j < |props| && j != i ==> !IsInstanceNamed(props[j], name)
    ensures InstanceNamed(props, name) == [props[i]]
    decreases |props|
  {
    var rest := props[1..];
    if i == 0 {
      NoneNamed(rest, name);
    } else {
      assert !IsInstanceNamed(props[0], name);
      assert rest[i - 1] == props[i];
      forall j | 0 <= j < |rest| && j != i - 1 ensures !IsInstanceNamed(rest[j], name) {
        assert rest[j] == props[j + 1];
      }
      InstanceNamedSingle(rest, name, i - 1);
    }
  }

  /** A table without an instance property of that name filters to nothing. */
  lemma {:induction false} NoneNamed(props: seq<PropertyInfo>, name: string)
    requires forall j :: 0 <= j < |props| ==> !IsInstanceNamed(props[j], name)
    ensures InstanceNamed(props, name) == []
    decreases |props|
  {
    if props != [] {
      forall j | 0 <= j < |props[1..]| ensures !IsInstanceNamed(props[1..][j], name) {
        assert props[1..][j] == props[j + 1];
      }
      NoneNamed(props[1..], name);
    }
  }
}
