/** The member classifiers of the Crop2ML extractor: which fields,
    properties and methods of a model type become exogenous inputs,
    parameters, states, outputs and functions, and the Crop2ML data-type
    token of a type name. */
module Crop2ML {
  import opened Wrappers
  import opened Linq
  import opened Text
  import opened SourceScan
  import opened Reflection

  /** The private `MemberDetails` record: a name, a description, the name
      of the member's type and its unit. For methods the type is null in
      the extractor and is never read; the model stores the empty string. */
  datatype MemberDetails = MemberDetails(name: string, description: string, dataType: string, unit: Option<string>)

  // ---------------------------------------------------------------------
  // Exogenous inputs: properties of linked collaborators used in the source
  // ---------------------------------------------------------------------

  /** A field `GetFields(Public | NonPublic | Instance | FlattenHierarchy)`
      reports that carries a `[Link]` attribute. */
  predicate IsLinkField(f: FieldInfo) {
    f.isLink && !f.isStatic && (f.isDeclared || f.isPublic)
  }

  /** The `[Link]` fields of a type, in field order. */
  function LinkFields(t: TypeInfo): (r: seq<FieldInfo>)
    ensures forall i :: 0 <= i < |r| ==> IsLinkField(r[i]) && r[i] in t.fields
  {
    Where(t.fields, IsLinkField)
  }

  /** The iteration visits exactly the `[Link]` fields of the type. */
  lemma LinkFieldsExactly(t: TypeInfo, f: FieldInfo)
    ensures f in LinkFields(t) <==> f in t.fields && IsLinkField(f)
  {
    if f in t.fields && IsLinkField(f) {
      var i :| 0 <= i < |t.fields| && t.fields[i] == f;
      WhereComplete(t.fields, IsLinkField, i);
    }
  }

  /** The collaborator of `f` has more than one instance property named `u`,
      so looking `u` up throws. */
  predicate Ambiguous(f: FieldInfo, u: string) {
    |InstanceNamed(f.collaborator, u)| > 1
  }

  /** The collaborator of `f` has exactly one instance property named `u`. */
  predicate Declares(f: FieldInfo, u: string) {
    |InstanceNamed(f.collaborator, u)| == 1
  }

  /** The property named `u` that the collaborator of `f` declares. */
  function DeclaredProperty(f: FieldInfo, u: string): (p: PropertyInfo)
    requires Declares(f, u)
    ensures p in f.collaborator && IsInstanceNamed(p, u)
  {
    InstanceNamed(f.collaborator, u)[0]
  }

  /** The exogenous entry for the use of property `p`, called `u` in the
      source, through link field `f`: named `FieldTypeName.u`. */
  function ExogenousEntry(f: FieldInfo, u: string, p: PropertyInfo): MemberDetails {
    MemberDetails(f.typeName + "." + u, p.summary, p.typeName, p.units)
  }

  /** The inner loop of `GetExogenous` for one link field: each used
      identifier is looked up on the field's type; a property found gives
      an entry, a null lookup gives nothing, an ambiguous one throws. */
  function EntriesFor(f: FieldInfo, used: seq<string>): (r: Result<seq<MemberDetails>, Error>)
    ensures r.Success? ==> |r.value| <= |used|
    decreases |used|
  {
    if used == [] then Success([])
    else
      var p :- GetProperty(f.typeName, f.collaborator, used[0]);
      var rest :- EntriesFor(f, used[1..]);
      if p.Some? then Success([ExogenousEntry(f, used[0], p.value)] + rest) else Success(rest)
  }

  /** The entries of one link field: its uses in the source, looked up. */
  function LinkEntries(f: FieldInfo, source: string): Result<seq<MemberDetails>, Error> {
    EntriesFor(f, EnumerateFieldUsage(f.name, source))
  }

  /** The entries of each link field, in link order. */
  function LinkGroups(links: seq<FieldInfo>, source: string): (r: seq<Result<seq<MemberDetails>, Error>>)
    ensures |r| == |links|
    ensures forall n :: 0 <= n < |links| ==> r[n] == LinkEntries(links[n], source)
    decreases |links|
  {
    if links == [] then [] else [LinkEntries(links[0], source)] + LinkGroups(links[1..], source)
  }

  /** The outer loop of `GetExogenous`: the link fields one after another,
      each scanned on its own. */
  function ExogenousOf(links: seq<FieldInfo>, source: string): Result<seq<MemberDetails>, Error> {
    ConcatResults(LinkGroups(links, source))
  }

  /** `GetExogenous(t, sourceCode)`. */
  function GetExogenous(t: TypeInfo, source: string): Result<seq<MemberDetails>, Error> {
    ExogenousOf(LinkFields(t), source)
  }

  /** The lookups of a link field throw exactly when one of the used
      identifiers is ambiguous on the field's type. */
  lemma {:induction false} EntriesForFailure(f: FieldInfo, used: seq<string>)
    ensures EntriesFor(f, used).Failure? <==> exists k :: 0 <= k < |used| && Ambiguous(f, used[k])
    decreases |used|
  {
    if used != [] {
      var rest := used[1..];
      EntriesForFailure(f, rest);
      if exists k :: 0 <= k < |rest| && Ambiguous(f, rest[k]) {
        var k :| 0 <= k < |rest| && Ambiguous(f, rest[k]);
        assert Ambiguous(f, used[k + 1]);
      }
      if exists k :: 0 <= k < |used| && Ambiguous(f, used[k]) {
        var k :| 0 <= k < |used| && Ambiguous(f, used[k]);
        if k > 0 {
          assert rest[k - 1] == used[k];
        }
      }
    }
  }

  /** The exception raised is that of the first ambiguous identifier. */
  lemma {:induction false} EntriesForError(f: FieldInfo, used: seq<string>, k: nat)
    requires k < |used| && Ambiguous(f, used[k])
    requires forall j :: 0 <= j < k ==> !Ambiguous(f, used[j])
    ensures EntriesFor(f, used) == Failure(AmbiguousMatch(f.typeName, used[k]))
    decreases |used|
  {
    if k > 0 {
      var rest := used[1..];
      assert !Ambiguous(f, used[0]);
      assert rest[k - 1] == used[k];
      forall j | 0 <= j < k - 1 ensures !Ambiguous(f, rest[j]) {
        assert rest[j] == used[j + 1];
      }
      EntriesForError(f, rest, k - 1);
    }
  }

  /** Without ambiguity the entries are named, in order, after exactly
      the used identifiers the field's type declares, each prefixed with
      the field's type name: identifiers that are not properties (method
      names, for instance) give nothing. */
  lemma {:induction false} EntriesForNames(f: FieldInfo, used: seq<string>)
    requires forall k :: 0 <= k < |used| ==> !Ambiguous(f, used[k])
    ensures EntriesFor(f, used).Success?
    ensures Select(EntriesFor(f, used).value, (e: MemberDetails) => e.name)
         == Select(Where(used, u => Declares(f, u)), u => f.typeName + "." + u)
    decreases |used|
  {
    if used != [] {
      var rest := used[1..];
      forall k | 0 <= k < |rest| ensures !Ambiguous(f, rest[k]) {
        assert rest[k] == used[k + 1];
      }
      EntriesForNames(f, rest);
      assert !Ambiguous(f, used[0]);
    }
  }

  /** Every entry of a link field comes from a used identifier that the
      field's type declares, and carries that property's summary, type and
      units. */
  lemma {:induction false} EntriesForSound(f: FieldInfo, used: seq<string>, i: nat)
    requires EntriesFor(f, used).Success? && i < |EntriesFor(f, used).value|
    ensures exists k :: 0 <= k < |used| && Declares(f, used[k])
                     && EntriesFor(f, used).value[i] == ExogenousEntry(f, used[k], DeclaredProperty(f, used[k]))
    decreases |used|
  {
    var rest := used[1..];
    var p := GetProperty(f.typeName, f.collaborator, used[0]).value;
    var r := EntriesFor(f, rest).value;
    if p.Some? && i == 0 {
      assert Declares(f, used[0]);
    } else {
      var j := if p.Some? then i - 1 else i;
      assert EntriesFor(f, used).value[i] == r[j];
      EntriesForSound(f, rest, j);
      var k :| 0 <= k < |rest| && Declares(f, rest[k])
                && r[j] == ExogenousEntry(f, rest[k], DeclaredProperty(f, rest[k]));
      assert rest[k] == used[k + 1];
    }
  }

  /** Every used identifier that the field's type declares gives its entry. */
  lemma {:induction false} EntriesForComplete(f: FieldInfo, used: seq<string>, k: nat)
    requires EntriesFor(f, used).Success? && k < |used| && Declares(f, used[k])
    ensures ExogenousEntry(f, used[k], DeclaredProperty(f, used[k])) in EntriesFor(f, used).value
    decreases |used|
  {
    if k > 0 {
      var rest := used[1..];
      assert rest[k - 1] == used[k];
      EntriesForComplete(f, rest, k - 1);
    }
  }

  /** Entries of consecutive runs of link fields are concatenated, and
      nothing is merged across fields: a property reached through two
      links gives two entries. */
  lemma ExogenousAppend(a: seq<FieldInfo>, b: seq<FieldInfo>, source: string)
    ensures ExogenousOf(a + b, source).Success?
        <==> ExogenousOf(a, source).Success? && ExogenousOf(b, source).Success?
    ensures ExogenousOf(a + b, source).Success? ==>
              ExogenousOf(a + b, source).value == ExogenousOf(a, source).value + ExogenousOf(b, source).value
  {
    LinkGroupsAppend(a, b, source);
    ConcatResultsAppend(LinkGroups(a, source), LinkGroups(b, source));
  }

  /** The groups of consecutive runs of link fields are those of each run. */
  lemma {:induction false} LinkGroupsAppend(a: seq<FieldInfo>, b: seq<FieldInfo>, source: string)
    ensures LinkGroups(a + b, source) == LinkGroups(a, source) + LinkGroups(b, source)
    decreases |a|
  {
    if a == [] {
      assert a + b == b;
    } else {
      assert (a + b)[1..] == a[1..] + b;
      LinkGroupsAppend(a[1..], b, source);
    }
  }

  /** A type with a single link field has that field's entries as its
      exogenous inputs, and throws when its lookups throw. */
  lemma ExogenousOfOne(f: FieldInfo, source: string)
    ensures ExogenousOf([f], source) == LinkEntries(f, source)
  {
    var g := LinkEntries(f, source);
    assert LinkGroups([f], source) == [g];
    assert [g][1..] == [];
    assert ConcatResults([g][1..]) == Success([]);
    if g.Success? {
      assert g.value + [] == g.value;
    } else {
      assert ConcatResults([g]) == Failure(g.error);
    }
  }

  /** Every exogenous entry comes from a link field and a surviving use of
      that field in the source whose identifier the field's type declares;
      it is named `FieldTypeName.identifier` and carries that property's
      summary, type and units. */
  lemma ExogenousSound(links: seq<FieldInfo>, source: string, i: nat)
    requires ExogenousOf(links, source).Success? && i < |ExogenousOf(links, source).value|
    ensures exists n, u :: 0 <= n < |links| && u in EnumerateFieldUsage(links[n].name, source)
              && Declares(links[n], u)
              && ExogenousOf(links, source).value[i] == ExogenousEntry(links[n], u, DeclaredProperty(links[n], u))
  {
    var groups := LinkGroups(links, source);
    ConcatResultsSound(groups, i);
    var n, j :| 0 <= n < |groups| && groups[n].Success? && 0 <= j < |groups[n].value|
                && ConcatResults(groups).value[i] == groups[n].value[j];
    var used := EnumerateFieldUsage(links[n].name, source);
    EntriesForSound(links[n], used, j);
    var k :| 0 <= k < |used| && Declares(links[n], used[k])
              && groups[n].value[j] == ExogenousEntry(links[n], used[k], DeclaredProperty(links[n], used[k]));
    assert used[k] in used;
  }

  /** Every surviving use of a link field whose identifier the field's type
      declares gives an exogenous entry. */
  lemma ExogenousComplete(links: seq<FieldInfo>, source: string, n: nat, u: string)
    requires ExogenousOf(links, source).Success?
    requires n < |links| && u in EnumerateFieldUsage(links[n].name, source) && Declares(links[n], u)
    ensures ExogenousEntry(links[n], u, DeclaredProperty(links[n], u)) in ExogenousOf(links, source).value
  {
    var groups := LinkGroups(links, source);
    ConcatResultsComplete(groups, n, 0);
    var used := EnumerateFieldUsage(links[n].name, source);
    var k :| 0 <= k < |used| && used[k] == u;
    EntriesForComplete(links[n], used, k);
    var e := ExogenousEntry(links[n], u, DeclaredProperty(links[n], u));
    var j :| 0 <= j < |groups[n].value| && groups[n].value[j] == e;
    ConcatResultsComplete(groups, n, j);
  }

  /** Every `[Link]` field of the type is scanned: each of its surviving
      uses that its type declares gives an exogenous entry. */
  lemma GetExogenousCoversLinks(t: TypeInfo, source: string, f: FieldInfo, u: string)
    requires GetExogenous(t, source).Success?
    requires f in t.fields && IsLinkField(f)
    requires u in EnumerateFieldUsage(f.name, source) && Declares(f, u)
    ensures ExogenousEntry(f, u, DeclaredProperty(f, u)) in GetExogenous(t, source).value
  {
    var links := LinkFields(t);
    LinkFieldsExactly(t, f);
    var n :| 0 <= n < |links| && links[n] == f;
    ExogenousComplete(links, source, n, u);
  }

  /** The extraction throws exactly when some link field uses an
      identifier that is ambiguous on the field's type. */
  lemma ExogenousFailure(links: seq<FieldInfo>, source: string)
    ensures ExogenousOf(links, source).Failure?
        <==> exists n, u :: 0 <= n < |links| && u in EnumerateFieldUsage(links[n].name, source) && Ambiguous(links[n], u)
  {
    if ExogenousOf(links, source).Failure? {
      FailureHasAmbiguousUse(links, source);
    }
    if exists n, u :: 0 <= n < |links| && u in EnumerateFieldUsage(links[n].name, source) && Ambiguous(links[n], u) {
      var n, u :| 0 <= n < |links| && u in EnumerateFieldUsage(links[n].name, source) && Ambiguous(links[n], u);
      AmbiguousUseFails(links, source, n, u);
    }
  }

  /** A failed extraction has an ambiguous use behind it. */
  lemma FailureHasAmbiguousUse(links: seq<FieldInfo>, source: string)
    requires ExogenousOf(links, source).Failure?
    ensures exists n, u :: 0 <= n < |links| && u in EnumerateFieldUsage(links[n].name, source) && Ambiguous(links[n], u)
  {
    var groups := LinkGroups(links, source);
    ConcatResultsFailure(groups);
    var n :| 0 <= n < |groups| && groups[n].Failure?;
    var used := EnumerateFieldUsage(links[n].name, source);
    EntriesForFailure(links[n], used);
    var k :| 0 <= k < |used| && Ambiguous(links[n], used[k]);
    assert used[k] in used;
  }

  /** An ambiguous use makes the extraction fail. */
  lemma AmbiguousUseFails(links: seq<FieldInfo>, source: string, n: nat, u: string)
    requires n < |links| && u in EnumerateFieldUsage(links[n].name, source) && Ambiguous(links[n], u)
    ensures ExogenousOf(links, source).Failure?
  {
    var groups := LinkGroups(links, source);
    var used := EnumerateFieldUsage(links[n].name, source);
    var k :| 0 <= k < |used| && used[k] == u;
    EntriesForFailure(links[n], used);
    assert groups[n].Failure?;
    ConcatResultsFailure(groups);
  }

  // ---------------------------------------------------------------------
  // Parameters, states and outputs
  // ---------------------------------------------------------------------

  /** A property `GetProperties(Public | Instance | DeclaredOnly)` reports. */
  predicate IsOwnPublicProperty(p: PropertyInfo) {
    p.isPublic && !p.isStatic && p.isDeclared
  }

  /** A parameter: an own public property with a setter of any visibility. */
  predicate IsParameter(p: PropertyInfo) {
    IsOwnPublicProperty(p) && p.canWrite
  }

  /** An output property: an own public property without a setter. */
  predicate IsOutputProperty(p: PropertyInfo) {
    IsOwnPublicProperty(p) && !p.canWrite
  }

  /** The details recorded for a property: its summary, type and units. */
  function PropertyDetails(p: PropertyInfo): MemberDetails {
    MemberDetails(p.name, p.summary, p.typeName, p.units)
  }

  /** `GetParameters(t)`. */
  function GetParameters(t: TypeInfo): seq<MemberDetails> {
    Select(Where(t.properties, IsParameter), PropertyDetails)
  }

  /** The own public read-only properties, as details. */
  function OutputProperties(t: TypeInfo): seq<MemberDetails> {
    Select(Where(t.properties, IsOutputProperty), PropertyDetails)
  }

  /** An input state: a field `GetFields(NonPublic | Instance | DeclaredOnly)`
      reports that is no compiler-generated backing field, not of type
      `EventHandler` and no `[Link]`. */
  predicate IsInputState(f: FieldInfo) {
    !f.isPublic && !f.isStatic && f.isDeclared
    && !Contains(f.name, "__BackingField")
    && f.typeName != "EventHandler"
    && !f.isLink
  }

  /** The details recorded for a field: its summary, its type and no unit. */
  function FieldDetails(f: FieldInfo): MemberDetails {
    MemberDetails(f.name, f.summary, f.typeName, None)
  }

  /** `GetInputStates(t)`. */
  function GetInputStates(t: TypeInfo): seq<MemberDetails> {
    Select(Where(t.fields, IsInputState), FieldDetails)
  }

  /** `GetOutputStates(t)`: the input states, then the read-only properties. */
  function GetOutputStates(t: TypeInfo): (r: seq<MemberDetails>)
    ensures |r| == |GetInputStates(t)| + |Where(t.properties, IsOutputProperty)|
  {
    GetInputStates(t) + OutputProperties(t)
  }

  /** A method that becomes a function: declared by the type itself and not
      an accessor of a property or an event. */
  predicate IsFunction(m: MethodInfo) {
    m.isDeclared
    && !StartsWith(m.name, "get_") && !StartsWith(m.name, "set_")
    && !StartsWith(m.name, "add_") && !StartsWith(m.name, "remove_")
  }

  /** The details recorded for a method: its name and summary. */
  function MethodDetails(m: MethodInfo): MemberDetails {
    MemberDetails(m.name, m.summary, "", None)
  }

  /** `GetMethods(t)`. */
  function GetMethods(t: TypeInfo): seq<MemberDetails> {
    Select(Where(t.methods, IsFunction), MethodDetails)
  }

  /** The parameters are exactly the details of the own public properties
      that have a setter. */
  lemma ParametersExactly(t: TypeInfo, d: MemberDetails)
    ensures d in GetParameters(t)
        <==> exists i :: 0 <= i < |t.properties| && IsParameter(t.properties[i]) && d == PropertyDetails(t.properties[i])
  {
    if d in GetParameters(t) {
      var j :| 0 <= j < |GetParameters(t)| && GetParameters(t)[j] == d;
      SelectWhereSound(t.properties, IsParameter, PropertyDetails, j);
    }
    if exists i :: 0 <= i < |t.properties| && IsParameter(t.properties[i]) && d == PropertyDetails(t.properties[i]) {
      var i :| 0 <= i < |t.properties| && IsParameter(t.properties[i]) && d == PropertyDetails(t.properties[i]);
      SelectWhereComplete(t.properties, IsParameter, PropertyDetails, i);
    }
  }

  /** The input states are exactly the details of the own non-public
      instance fields that are no backing field, event or link; in
      particular a public field is never an input state. */
  lemma InputStatesExactly(t: TypeInfo, d: MemberDetails)
    ensures d in GetInputStates(t)
        <==> exists i :: 0 <= i < |t.fields| && IsInputState(t.fields[i]) && d == FieldDetails(t.fields[i])
  {
    if d in GetInputStates(t) {
      var j :| 0 <= j < |GetInputStates(t)| && GetInputStates(t)[j] == d;
      SelectWhereSound(t.fields, IsInputState, FieldDetails, j);
    }
    if exists i :: 0 <= i < |t.fields| && IsInputState(t.fields[i]) && d == FieldDetails(t.fields[i]) {
      var i :| 0 <= i < |t.fields| && IsInputState(t.fields[i]) && d == FieldDetails(t.fields[i]);
      SelectWhereComplete(t.fields, IsInputState, FieldDetails, i);
    }
  }

  /** The outputs are the input states, which carry no unit, followed by
      the details of the own public properties without a setter. */
  lemma OutputsExactly(t: TypeInfo, d: MemberDetails)
    ensures d in GetOutputStates(t)
        <==> ((exists i :: 0 <= i < |t.fields| && IsInputState(t.fields[i]) && d == FieldDetails(t.fields[i]))
              || (exists i :: 0 <= i < |t.properties| && IsOutputProperty(t.properties[i]) && d == PropertyDetails(t.properties[i])))
    ensures forall k :: 0 <= k < |GetInputStates(t)| ==> GetOutputStates(t)[k].unit == None
  {
    InputStatesExactly(t, d);
    if d in OutputProperties(t) {
      var j :| 0 <= j < |OutputProperties(t)| && OutputProperties(t)[j] == d;
      SelectWhereSound(t.properties, IsOutputProperty, PropertyDetails, j);
    }
    if exists i :: 0 <= i < |t.properties| && IsOutputProperty(t.properties[i]) && d == PropertyDetails(t.properties[i]) {
      var i :| 0 <= i < |t.properties| && IsOutputProperty(t.properties[i]) && d == PropertyDetails(t.properties[i]);
      SelectWhereComplete(t.properties, IsOutputProperty, PropertyDetails, i);
    }
    forall k | 0 <= k < |GetInputStates(t)| ensures GetOutputStates(t)[k].unit == None {
      assert GetOutputStates(t)[k] == GetInputStates(t)[k];
      var w := Where(t.fields, IsInputState);
      assert GetInputStates(t)[k] == FieldDetails(w[k]);
    }
  }

  /** Every own public property is either a parameter or an output
      property, never both: the two groups together have as many entries
      as there are own public properties. */
  lemma PropertiesPartitioned(t: TypeInfo)
    ensures |GetParameters(t)| + |OutputProperties(t)| == |Where(t.properties, IsOwnPublicProperty)|
  {
    WherePartition(t.properties, IsOwnPublicProperty, IsParameter, IsOutputProperty);
  }

  /** The functions are exactly the details of the own methods that are no
      property or event accessor, so no function name starts with `get_`,
      `set_`, `add_` or `remove_`. */
  lemma MethodsExactly(t: TypeInfo, d: MemberDetails)
    ensures d in GetMethods(t)
        <==> exists i :: 0 <= i < |t.methods| && IsFunction(t.methods[i]) && d == MethodDetails(t.methods[i])
    ensures d in GetMethods(t) ==>
              !StartsWith(d.name, "get_") && !StartsWith(d.name, "set_")
              && !StartsWith(d.name, "add_") && !StartsWith(d.name, "remove_")
  {
    if d in GetMethods(t) {
      var j :| 0 <= j < |GetMethods(t)| && GetMethods(t)[j] == d;
      SelectWhereSound(t.methods, IsFunction, MethodDetails, j);
    }
    if exists i :: 0 <= i < |t.methods| && IsFunction(t.methods[i]) && d == MethodDetails(t.methods[i]) {
      var i :| 0 <= i < |t.methods| && IsFunction(t.methods[i]) && d == MethodDetails(t.methods[i]);
      SelectWhereComplete(t.methods, IsFunction, MethodDetails, i);
    }
  }

  // ---------------------------------------------------------------------
  // Data-type tokens
  // ---------------------------------------------------------------------

  /** `GetDataTypeString`: the type name upper-cased, every `[]` replaced
      by `ARRAY`. */
  function GetDataTypeString(typeName: string): string {
    Replace(ToUpper(typeName), "[]", "ARRAY")
  }

  /** Replacing `[]` by `ARRAY` leaves no `[]`, and the result starts with
      `A` when the input starts with `[]` and with the input's first
      character otherwise. */
  lemma {:induction false} ReplaceBracketsRemovesThem(s: string)
    ensures !Contains(Replace(s, "[]", "ARRAY"), "[]")
    ensures |s| > 0 ==> (|Replace(s, "[]", "ARRAY")| > 0
                         && Replace(s, "[]", "ARRAY")[0] == (if StartsWith(s, "[]") then 'A' else s[0]))
    decreases |s|
  {
    var r := Replace(s, "[]", "ARRAY");
    if |s| < 2 {
      forall i | 0 <= i <= |r| ensures !OccursAt(r, "[]", i) {
      }
    } else if s[..2] == "[]" {
      var rest := Replace(s[2..], "[]", "ARRAY");
      ReplaceBracketsRemovesThem(s[2..]);
      assert r == "ARRAY" + rest;
      NoBracketsAfterArray(rest);
    } else {
      var rest := Replace(s[1..], "[]", "ARRAY");
      ReplaceBracketsRemovesThem(s[1..]);
      assert r == [s[0]] + rest;
      assert s[0] == '[' ==> rest[0] != ']' by {
        assert s[..2] == [s[0], s[1]];
      }
      NoBracketsAfterChar(s[0], rest);
    }
  }

  /** `ARRAY` in front of a text without `[]` makes none. */
  lemma NoBracketsAfterArray(rest: string)
    requires !Contains(rest, "[]")
    ensures !Contains("ARRAY" + rest, "[]")
  {
    var r := "ARRAY" + rest;
    forall i | 0 <= i <= |r| ensures !OccursAt(r, "[]", i) {
      if 5 <= i && i + 2 <= |r| {
        assert r[i..i + 2] == rest[i - 5..i - 3];
        assert !OccursAt(rest, "[]", i - 5);
      } else if i + 2 <= |r| {
        assert r[i] != '[';
      }
    }
  }

  /** A character in front of a text without `[]` makes none, unless it
      is `[` and the text starts with `]`. */
  lemma NoBracketsAfterChar(c: char, rest: string)
    requires !Contains(rest, "[]")
    requires c == '[' && |rest| > 0 ==> rest[0] != ']'
    ensures !Contains([c] + rest, "[]")
  {
    var r := [c] + rest;
    forall i | 0 <= i <= |r| ensures !OccursAt(r, "[]", i) {
      if 1 <= i && i + 2 <= |r| {
        assert r[i..i + 2] == rest[i - 1..i + 1];
        assert !OccursAt(rest, "[]", i - 1);
      } else if i == 0 && 2 <= |r| {
        assert r[0..2] == [c, rest[0]];
      }
    }
  }

  /** Replacing `[]` by `ARRAY` keeps a string upper-case. */
  lemma {:induction false} ReplaceBracketsKeepsUpperCase(s: string)
    requires IsUpperCase(s)
    ensures IsUpperCase(Replace(s, "[]", "ARRAY"))
    decreases |s|
  {
    if |s| >= 2 {
      if s[..2] == "[]" {
        ReplaceBracketsKeepsUpperCase(s[2..]);
        assert Replace(s, "[]", "ARRAY") == "ARRAY" + Replace(s[2..], "[]", "ARRAY");
      } else {
        ReplaceBracketsKeepsUpperCase(s[1..]);
        assert Replace(s, "[]", "ARRAY") == [s[0]] + Replace(s[1..], "[]", "ARRAY");
      }
    }
  }

  /** A data-type token never contains `[]`, has no lower-case letter, and
      mapping it once more gives it back unchanged. */
  lemma DataTypeStringIdempotent(typeName: string)
    ensures !Contains(GetDataTypeString(typeName), "[]")
    ensures IsUpperCase(GetDataTypeString(typeName))
    ensures GetDataTypeString(GetDataTypeString(typeName)) == GetDataTypeString(typeName)
  {
    var r := GetDataTypeString(typeName);
    ReplaceBracketsRemovesThem(ToUpper(typeName));
    ReplaceBracketsKeepsUpperCase(ToUpper(typeName));
    ToUpperOfUpperCase(r);
    ReplaceAbsent(r, "[]", "ARRAY");
  }

  /** The token of an array type is the token of its element type followed
      by `ARRAY`. */
  lemma DataTypeStringOfArray(typeName: string)
    ensures GetDataTypeString(typeName + "[]") == GetDataTypeString(typeName) + "ARRAY"
  {
    var u := ToUpper(typeName);
    assert ToUpper(typeName + "[]") == u + "[]";
    forall k | |u| - 2 < k < |u| ensures !OccursAt(u + "[]", "[]", k) {
      assert (u + "[]")[k + 1] == '[';
    }
    ReplaceAppend(u, "[]", "[]", "ARRAY");
    assert Replace("[]", "[]", "ARRAY") == "ARRAY" + Replace([], "[]", "ARRAY");
  }

  /** A type name without brackets is only upper-cased. */
  lemma DataTypeStringWithoutBrackets(typeName: string)
    requires forall i :: 0 <= i < |typeName| ==> typeName[i] != '['
    ensures GetDataTypeString(typeName) == ToUpper(typeName)
  {
    var u := ToUpper(typeName);
    forall i | 0 <= i <= |u| ensures !OccursAt(u, "[]", i) {
      if i + 2 <= |u| {
        assert u[i] == UpperChar(typeName[i]);
      }
    }
    ReplaceAbsent(u, "[]", "ARRAY");
  }

  /** `Double[]` becomes `DOUBLEARRAY`. */
  lemma DataTypeStringOfDoubleArray()
    ensures GetDataTypeString("Double[]") == "DOUBLEARRAY"
  {
    assert "Double" + "[]" == "Double[]";
    DataTypeStringOfArray("Double");
    DataTypeStringWithoutBrackets("Double");
    UpperDouble();
    assert "DOUBLE" + "ARRAY" == "DOUBLEARRAY";
  }

  /** Upper-casing `Double`. */
  lemma UpperDouble()
    ensures ToUpper("Double") == "DOUBLE"
  {
    var u := ToUpper("Double");
    assert u[1] == 'O' && u[2] == 'U' && u[3] == 'B' && u[4] == 'L' && u[5] == 'E';
  }
}
