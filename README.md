# jsonschema2immutable rules, modelled in Dafny

jsonschema2immutable compiles JSON Schema documents into abstract
Immutables classes. The compilation runs on
jsonschema2pojo's rule engine and the codemodel class builder. This project
models the three rules that make its decisions:

- **PropertyRule** compiles one property into one getter. It follows the
  property's `$ref` chain and reads `required` and `default` from the
  property node, or from the referenced node when the property has none.
  It boxes an optional primitive type and turns the `default` literal into
  a typed expression. It then declares the getter:
  - abstract when there is no default;
  - concrete, `@Value.Default` and returning the default when there is one;
  - `@Nullable` when it is optional, has no default and its node is not an array.
- **ObjectRule** compiles one object schema into one class:
  - it refuses `extendsJavaClass`;
  - it resolves the `extends` supertype; a primitive or final supertype is
    returned as it is, and a supertype that is not an interface is refused;
  - it picks the class: an `existingJavaType` is used as it is. A `javaType`
    is checked, then the configured prefix and suffix are added to its class
    name. Without either, a name is derived from the node name and made
    unique in the package by a trial define-then-remove in the registry;
  - it annotates the new class, then runs the properties rule and adds the
    `javaInterfaces`.
- **PropertiesRule** runs the property rule on every member of
  `properties`, in member order, then records the property order.

The model is organised as follows:

- `json.dfy`: the Jackson `JsonNode` tree and its accessors.
- `java_types.dfy`: codemodel types, with boxing and unboxing.
- `code_model.dfy`: the classes being built, and a registry of them keyed
  by package and simple name.
- `rule_context.dfy`: the schema, the configuration, and the collaborators
  the rules call without defining them.
- `strings.dfy`: the `String` and `StringUtils` operations the rules use.
- One file per rule: `property_rule.dfy`, `properties_rule.dfy` and
  `object_rule.dfy`.

Objects the rules change in place are classes with `modifies` clauses: a
generated class (`DefinedClass`), the registry (`ClassRegistry`) and a
schema's assigned Java type (`Schema`). Each method is proved against a
function on values. For a property that function is `PropertyRule.Compile`,
and for a whole `properties` object it is
`PropertiesRule.Run(PropertiesRule.Outcomes(..))`. For an object node it is
`ObjectRule.Plan`, which builds on `ObjectRule.ClassChoice` and
`ObjectRule.UniqueName`. Lemmas then state what the source promises about
those functions.

The collaborators are fields of `RuleContext.Env`; their code is not part of
this model:

- the schema store (`SchemaStore.create`);
- the schema rule;
- jsonschema2pojo's `NameHelper`;
- `MakeUniqueClassName.makeUnique`;
- `TypeUtil.resolveType`.

The rules as written have no check for a `$ref` cycle, and none on the
range of a default literal. Nothing bounds `makeUnique`'s retries, and
nothing remembers compiled nodes beyond the registry and the schema's
assigned type. The model follows the code in each of these, with one
exception: a `$ref` chain that never ends is excluded by a precondition
(see the PropertyRule.ResolveRefs line under "Left out").

## Model

| member | source | states |
|---|---|---|
| PropertyRule.OriginalOrRef | src/main/java/us/holsopple/jsonschema2immutable/rules/PropertyRule.java:54-61 | the original node's member when the original has the key, else the referenced node's, and none exactly when neither has it |
| PropertyRule.ResolveRefs | src/main/java/us/holsopple/jsonschema2immutable/rules/PropertyRule.java:112-121 | the node returned is the first one without `$ref` on the chain that starts at the property node and goes from each node to the content of the schema its `$ref` loads; it is reached within the chain bound, and a node without `$ref` is returned unchanged |
| PropertyRule.RefChainEndsMonotone | src/main/java/us/holsopple/jsonschema2immutable/rules/PropertyRule.java:112-121 | a chain that ends within some number of loads also ends within any larger number |
| PropertyRule.ResolveRefsDepthIrrelevant | src/main/java/us/holsopple/jsonschema2immutable/rules/PropertyRule.java:112-121 | the node a chain resolves to does not depend on the bound used to show that it ends |
| PropertyRule.FindName | src/main/java/us/holsopple/jsonschema2immutable/rules/PropertyRule.java:88-93 | the search of the `required` array's elements finds the name exactly when some element's text equals it |
| PropertyRule.IsRequired | src/main/java/us/holsopple/jsonschema2immutable/rules/PropertyRule.java:80-96 | a `required` member on the property or its referenced node decides by its boolean value; otherwise required iff an element of the schema's `required` array names the property; false when that array is absent |
| PropertyRule.RequiredFlagWins | src/main/java/us/holsopple/jsonschema2immutable/rules/PropertyRule.java:80-84 | a `required` member on the property or its referenced node gives its boolean value, whatever the schema's `required` array says |
| PropertyRule.RequiredByArray | src/main/java/us/holsopple/jsonschema2immutable/rules/PropertyRule.java:86-95 | without such a member, the property is required iff the schema has a `required` member and one of its elements has the property name as its text |
| PropertyRule.PresentedType | src/main/java/us/holsopple/jsonschema2immutable/rules/PropertyRule.java:25-27 | an optional primitive becomes exactly its boxed form; a required property or a class keeps the resolved type; so the getter type unboxes to the resolved type and is primitive only when required |
| PropertyRule.DefaultExpr | src/main/java/us/holsopple/jsonschema2immutable/rules/PropertyRule.java:123-151 | none iff neither node has `default`. Otherwise: a literal of the kind that fits a boolean, int, long, double or float type; a text literal iff the boxed type accepts a String; a static call on the boxed type otherwise, `fromString` iff the default is not a number and the type is not a defined enum, else `fromValue`; its argument is a long iff the default is integral, a double iff it is a non-integral number, and the default's text iff it is not a number |
| PropertyRule.DefaultIgnoresBoxing | src/main/java/us/holsopple/jsonschema2immutable/rules/PropertyRule.java:128-147 | boxing the type beforehand does not change the default expression: the primitive tests are on the unboxed form, the String test and the call's owner on the boxed form, and the enum test on the type itself, which boxing leaves unchanged for a class and which is never a defined enum for a primitive |
| PropertyRule.NullableDecision | src/main/java/us/holsopple/jsonschema2immutable/rules/PropertyRule.java:102-104 | `@Nullable` iff not required, no default and the node's `type` text is not `array`; the missing-`type` fault happens exactly when the first two hold and `type` is absent |
| PropertyRule.Analyze | src/main/java/us/holsopple/jsonschema2immutable/rules/PropertyRule.java:21-29 | the node is the end of the `$ref` chain, so it has no `$ref`; requiredness is decided on it and the original node; the presented type is the schema rule's type, boxed exactly when it is an optional primitive; the default is the default expression for the schema rule's type, boxing aside, and exists iff either node has `default` |
| PropertyRule.Compile | src/main/java/us/holsopple/jsonschema2immutable/rules/PropertyRule.java:20-37 | the getter has the presented type and the helper's name, is public, and is abstract iff there is no default. It faults iff the nullable test does, leaving the bare declared getter. Otherwise: the body is the default, and the annotations are exactly `@Nullable` if so decided, then the getter hook, then `@Value.Default` if defaulted; `@Nullable` and `@Value.Default` never both |
| PropertyRule.AddGetter | src/main/java/us/holsopple/jsonschema2immutable/rules/PropertyRule.java:98-106 | appends one getter, public and abstract iff there is no default, annotated `@Nullable` iff so decided, and reports the missing-`type` fault |
| PropertyRule.FinishGetter | src/main/java/us/holsopple/jsonschema2immutable/rules/PropertyRule.java:31-37 | the declared getter gains the getter hook and, with a default, `@Value.Default` and a body returning it |
| PropertyRule.Apply | src/main/java/us/holsopple/jsonschema2immutable/rules/PropertyRule.java:19-52 | the class gains exactly the compiled getter; the same class is returned, or the fault |
| PropertiesRule.Outcomes | src/main/java/us/holsopple/jsonschema2immutable/rules/PropertiesRule.java:21-25 | one outcome per member name, in iteration order, each the property rule on that member's own node |
| PropertiesRule.RunMeaning | src/main/java/us/holsopple/jsonschema2immutable/rules/PropertiesRule.java:21-25 | the getters added are those of the properties up to and including the first that faults, in order. With no fault, every property is compiled exactly once. A fault is that of the last property compiled |
| PropertiesRule.Run | src/main/java/us/holsopple/jsonschema2immutable/rules/PropertiesRule.java:21-25 | no more getters than properties; without a fault one getter per property; a fault is that of the last property compiled, which added its getter |
| PropertiesRule.RunStopsAtFault | src/main/java/us/holsopple/jsonschema2immutable/rules/PropertiesRule.java:21-25 | once a property faults, the properties after it change nothing |
| PropertiesRule.ApplyAt | src/main/java/us/holsopple/jsonschema2immutable/rules/PropertiesRule.java:24 | the property rule on the i-th member adds that member's getter and gives its fault |
| PropertiesRule.Step | src/main/java/us/holsopple/jsonschema2immutable/rules/PropertiesRule.java:21-25 | one loop turn extends the run by the i-th property; a fault there is the fault of the whole run |
| PropertiesRule.Apply | src/main/java/us/holsopple/jsonschema2immutable/rules/PropertiesRule.java:19-31 | a missing `properties` node leaves the class untouched. Otherwise the class gains the run's getters in member order, and the property-order hook only after every property compiled. The same class is returned, or the first fault with no order hook |
| ObjectRule.SuperSchemaPathRoundTrip | src/main/java/us/holsopple/jsonschema2immutable/rules/ObjectRule.java:196-198 | the fragment the path was built from is read back from it |
| ObjectRule.SuperSchemaPath | src/main/java/us/holsopple/jsonschema2immutable/rules/ObjectRule.java:196-198 | the path starts with `#` and ends with `extends`; it is `#extends`, of length 8, exactly when the schema id has no fragment, and otherwise `#`, the fragment and `/extends` |
| ObjectRule.SuperSchemaPathInjective | src/main/java/us/holsopple/jsonschema2immutable/rules/ObjectRule.java:196-198 | schemas with different fragments ask for different super-schema paths |
| ObjectRule.SuperType | src/main/java/us/holsopple/jsonschema2immutable/rules/ObjectRule.java:179-190 | fails iff `extendsJavaClass` is present; a supertype exists iff `extends` does; it is the `extends` node compiled as `<name>Parent` against the super-schema |
| ObjectRule.FullFieldName | src/main/java/us/holsopple/jsonschema2immutable/rules/ObjectRule.java:264-275 | the name sits between the prefix and the suffix; a null prefix or suffix is skipped, and the lengths add up |
| ObjectRule.RawClassName | src/main/java/us/holsopple/jsonschema2immutable/rules/ObjectRule.java:253-257 | the prefix, the field name with its first character upper-cased, and the suffix, in that order, each present only when set |
| ObjectRule.Retries | src/main/java/us/holsopple/jsonschema2immutable/rules/ObjectRule.java:277-285 | the number of retries: every earlier candidate is taken in the package, the last one is free, and there are no more retries than taken names |
| ObjectRule.RetriesBounded | src/main/java/us/holsopple/jsonschema2immutable/rules/ObjectRule.java:277-285 | `makeUnique` retries at most as many times as there are registered classes |
| ObjectRule.UniqueName | src/main/java/us/holsopple/jsonschema2immutable/rules/ObjectRule.java:277-285 | the name returned is not taken in the package, and is the candidate itself when that is free |
| ObjectRule.UniqueNameStep | src/main/java/us/holsopple/jsonschema2immutable/rules/ObjectRule.java:282-283 | a taken candidate gives the same final name as the next candidate |
| ObjectRule.MakeUnique | src/main/java/us/holsopple/jsonschema2immutable/rules/ObjectRule.java:277-285 | returns the unique name, and the registry is as it was because the trial class is removed |
| ObjectRule.GetClassName | src/main/java/us/holsopple/jsonschema2immutable/rules/ObjectRule.java:252-262 | the derived candidate made unique: a name free in the package, registry unchanged |
| ObjectRule.ExistingTypeName | src/main/java/us/holsopple/jsonschema2immutable/rules/ObjectRule.java:122-128 | splitting `existingJavaType` at the first `<` and putting it back gives the whole text, generic arguments kept |
| ObjectRule.ExistingJavaTypeUsed | src/main/java/us/holsopple/jsonschema2immutable/rules/ObjectRule.java:121-130 | `existingJavaType` gives the primitive its text before `<` names, else the whole text resolved in the package; no class is defined |
| ObjectRule.ExistingType | src/main/java/us/holsopple/jsonschema2immutable/rules/ObjectRule.java:122-128 | the primitive the text before the first `<` names, when it names one; otherwise the whole text, generic arguments included, resolved in the package |
| ObjectRule.DecoratedJavaType | src/main/java/us/holsopple/jsonschema2immutable/rules/ObjectRule.java:143-146 | a `javaType` that is empty or ends in `.` is unchanged; otherwise its length grows by the rendered prefix and suffix |
| ObjectRule.SplitQualified | src/main/java/us/holsopple/jsonschema2immutable/rules/ObjectRule.java:148 | the class name part has no `.`, and a name without `.` is in the root package |
| ObjectRule.SplitQualifiedRoundTrip | src/main/java/us/holsopple/jsonschema2immutable/rules/ObjectRule.java:148 | splitting a class's qualified name gives back its package and name |
| ObjectRule.DecorationKeepsPackage | src/main/java/us/holsopple/jsonschema2immutable/rules/ObjectRule.java:143-148 | when neither the rendered prefix nor the rendered suffix contains `.`, decoration keeps the package and puts the prefix right before the simple class name and the suffix right after it |
| ObjectRule.ClassChoice | src/main/java/us/holsopple/jsonschema2immutable/rules/ObjectRule.java:116-154 | `existingJavaType` is used as a type iff present. A refusal comes only from a `javaType`. An existing class is reused only for a `javaType` whose key is taken. A created key is never taken. Without either member, a class is created under the unique derived name |
| ObjectRule.JavaTypeRefusals | src/main/java/us/holsopple/jsonschema2immutable/rules/ObjectRule.java:132-146 | a primitive `javaType` and a generic `javaType` are refused with their text, in that order; any other is decorated and split into the key |
| ObjectRule.ImmutableAnnotations | src/main/java/us/holsopple/jsonschema2immutable/rules/ObjectRule.java:156-168 | four annotations in order: the property-inclusion hook, `@Value.Immutable`, `@Value.Modifiable`, and `@JsonDeserialize(as = ...)` naming `<package>.Immutable<name>`, or `.Immutable<name>` in the root package |
| ObjectRule.DefineAnnotated | src/main/java/us/holsopple/jsonschema2immutable/rules/ObjectRule.java:148-159 | a taken key returns the class there with the registry unchanged. A free key registers a fresh public abstract class under it, carrying the inclusion hook and the immutable annotations |
| ObjectRule.Choose | src/main/java/us/holsopple/jsonschema2immutable/rules/ObjectRule.java:116-151 | the choice is the one `ClassChoice` gives for the registry's keys, with the registry unchanged |
| ObjectRule.ChooseExisting | src/main/java/us/holsopple/jsonschema2immutable/rules/ObjectRule.java:121-130 | the `existingJavaType` branch of `createClass` gives the type the class choice names |
| ObjectRule.ChooseJavaType | src/main/java/us/holsopple/jsonschema2immutable/rules/ObjectRule.java:132-148 | the `javaType` branch of `createClass` gives the refusal or the key the class choice names |
| ObjectRule.CreateClass | src/main/java/us/holsopple/jsonschema2immutable/rules/ObjectRule.java:116-161 | a refusal or a type used as it is changes nothing; an existing class is returned as it is; a new class is registered, public, abstract and annotated, with no getters or interfaces |
| ObjectRule.Plan | src/main/java/us/holsopple/jsonschema2immutable/rules/ObjectRule.java:44-61 | `extendsJavaClass` is refused first. A primitive or final supertype is used as it is. A supertype that is not an interface is refused. Anything else goes to the class choice |
| ObjectRule.PlanNeverReplaces | src/main/java/us/holsopple/jsonschema2immutable/rules/ObjectRule.java:148-153 | a plan creates only under keys not taken and reuses only taken ones |
| ObjectRule.InterfaceTypes | src/main/java/us/holsopple/jsonschema2immutable/rules/ObjectRule.java:246-250 | one resolved type per listed element, in order |
| ObjectRule.AddInterfaces | src/main/java/us/holsopple/jsonschema2immutable/rules/ObjectRule.java:246-250 | the class implements each listed interface, after those it had, in order |
| ObjectRule.CompileProperties | src/main/java/us/holsopple/jsonschema2immutable/rules/ObjectRule.java:81 | the class gains the getters of the properties run and, without a fault, the order hook |
| ObjectRule.AddDeclaredInterfaces | src/main/java/us/holsopple/jsonschema2immutable/rules/ObjectRule.java:83-85 | the `javaInterfaces` are added when present; nothing when absent |
| ObjectRule.Complete | src/main/java/us/holsopple/jsonschema2immutable/rules/ObjectRule.java:81-85 | the class gains the getters of the properties run; with a fault it is returned and nothing else is added, otherwise the order hook and the `javaInterfaces` follow, the interfaces after the supertype |
| ObjectRule.Populate | src/main/java/us/holsopple/jsonschema2immutable/rules/ObjectRule.java:63-93 | the supertype is the first interface, and the schema's Java type is set only if empty. The properties are compiled; the `javaInterfaces` are added only if no property faulted |
| ObjectRule.Apply | src/main/java/us/holsopple/jsonschema2immutable/rules/ObjectRule.java:42-95 | follows the plan. A refusal, a type used as it is, or an existing class leaves the registry and the schema's type unchanged. A new class is registered only under the planned key, which was free, and is finished; the registry here holds the classes this rule defines (see Left out) |
| Json.Get | src/main/java/us/holsopple/jsonschema2immutable/rules/PropertyRule.java:55-58 | `get` finds a value iff the node is an object with a member of that name |
| Json.Lookup | src/main/java/us/holsopple/jsonschema2immutable/rules/PropertyRule.java:56 | a member value is found exactly when the key is among the member names |
| Json.Names | src/main/java/us/holsopple/jsonschema2immutable/rules/PropertiesRule.java:21 | one name per member |
| Json.FieldNames | src/main/java/us/holsopple/jsonschema2immutable/rules/PropertiesRule.java:21 | a node that is not an object has no field names |
| Json.LookupFindsFirst | src/main/java/us/holsopple/jsonschema2immutable/rules/PropertiesRule.java:24 | the value found is that of the first member with the name |
| Json.NamesInOrder | src/main/java/us/holsopple/jsonschema2immutable/rules/PropertiesRule.java:21 | `fieldNames` lists the members' names position by position |
| Json.Elements | src/main/java/us/holsopple/jsonschema2immutable/rules/PropertyRule.java:89 | iterating an array gives its items; an object gives its members' values, one per member and in member order; a scalar gives nothing |
| Json.Trim | src/main/java/us/holsopple/jsonschema2immutable/rules/PropertyRule.java:83 | the trim `asBoolean` applies to text: a slice of the text that starts and ends above space, with only blanks cut from either end |
| Json.NatText | src/main/java/us/holsopple/jsonschema2immutable/rules/PropertyRule.java:90 | the text of a natural number is a non-empty numeral of decimal digits whose decimal value is the number, with no leading zero unless it is `0` itself |
| Json.NatTextCanonical | src/main/java/us/holsopple/jsonschema2immutable/rules/PropertyRule.java:90 | any digit text without a leading zero that reads as the number is exactly the text written for it, so the text compared with a property name is unique |
| Json.AsText | src/main/java/us/holsopple/jsonschema2immutable/rules/PropertyRule.java:90 | `asText` gives a string's own text, a decimal's recorded numeral, `true`/`false` for a boolean, `null` for null, and the empty text for an array or object |
| Json.IntTextDenotes | src/main/java/us/holsopple/jsonschema2immutable/rules/PropertyRule.java:90 | the text of an integer is its decimal numeral, after a `-` when negative, with no leading zero unless it is `0`, and reads back as the integer |
| Json.AsBoolean | src/main/java/us/holsopple/jsonschema2immutable/rules/PropertyRule.java:83 | `asBoolean` gives a boolean's value, true for a non-zero integer, true for a text that trims to `true`, and false for a decimal, null, array or object |
| Json.BooleanTextReadsBack | src/main/java/us/holsopple/jsonschema2immutable/rules/PropertyRule.java:83 | the text of a boolean, with blanks around it, reads back as that boolean |
| JavaTypes.WrappedPrim | src/main/java/us/holsopple/jsonschema2immutable/rules/PropertyRule.java:128 | a wrapper class name gives exactly the primitive it wraps |
| JavaTypes.Box | src/main/java/us/holsopple/jsonschema2immutable/rules/PropertyRule.java:26 | `boxify` gives a class type that unboxes back; a primitive becomes its final library wrapper |
| JavaTypes.Unbox | src/main/java/us/holsopple/jsonschema2immutable/rules/PropertyRule.java:128 | `unboxify` keeps a primitive and a class that wraps nothing; a library wrapper class gives the primitive it wraps, and a class gives a primitive only when it is that primitive's wrapper |
| JavaTypes.PrimitiveNamed | src/main/java/us/holsopple/jsonschema2immutable/rules/ObjectRule.java:124-125 | a name denotes a primitive exactly when it is the keyword of one of the eight primitive types other than `void`, and then that type |
| Strings.IndexOf | src/main/java/us/holsopple/jsonschema2immutable/rules/ObjectRule.java:122 | the first position of the character, none iff it does not occur |
| Strings.LastIndexOf | src/main/java/us/holsopple/jsonschema2immutable/rules/ObjectRule.java:143 | the last position of the character, -1 iff it does not occur |
| Strings.SubstringBefore | src/main/java/us/holsopple/jsonschema2immutable/rules/ObjectRule.java:122 | the text before the first occurrence, without the character; all of it when absent |
| Strings.SubstringAfter | src/main/java/us/holsopple/jsonschema2immutable/rules/ObjectRule.java:128 | empty when the character is absent |
| Strings.SplitAtFirst | src/main/java/us/holsopple/jsonschema2immutable/rules/ObjectRule.java:128 | the text before, the character and the text after put back give the text |
| Strings.Capitalize | src/main/java/us/holsopple/jsonschema2immutable/rules/ObjectRule.java:256 | same length, first character upper-cased, the rest unchanged |
| CodeModel.ClassRegistry.DefineClass | src/main/java/us/holsopple/jsonschema2immutable/rules/ObjectRule.java:279 | a free key gets a fresh, empty class, and nothing else changes; a taken key gives the class there and changes nothing |
| CodeModel.ClassRegistry.Remove | src/main/java/us/holsopple/jsonschema2immutable/rules/ObjectRule.java:280 | the key is no longer registered; the rest is unchanged |
| CodeModel.DefinedClass.AddMethod | src/main/java/us/holsopple/jsonschema2immutable/rules/PropertyRule.java:101 | appends a getter with no annotations and no body, and gives its index |
| CodeModel.DefinedClass.AnnotateMethod | src/main/java/us/holsopple/jsonschema2immutable/rules/PropertyRule.java:103 | appends the annotation to that getter only |
| CodeModel.DefinedClass.SetReturn | src/main/java/us/holsopple/jsonschema2immutable/rules/PropertyRule.java:36 | sets that getter's returned expression only |
| CodeModel.DefinedClass.Implement | src/main/java/us/holsopple/jsonschema2immutable/rules/ObjectRule.java:64 | appends the interface |
| CodeModel.DefinedClass.Annotate | src/main/java/us/holsopple/jsonschema2immutable/rules/ObjectRule.java:164 | appends the annotation |
| RuleContext.Schema.SetJavaTypeIfEmpty | src/main/java/us/holsopple/jsonschema2immutable/rules/ObjectRule.java:67 | the first type assigned stays |

Two helpers carry no contract of their own. `Json.Has` is Jackson's `has`,
defined as `get` finding a value. `ObjectRule.JavaText` is how Java renders
a possibly `null` string in a concatenation: its text, or `null`.

## Left out

- Input and output are not modelled. This covers the command-line
  application (`JsonSchema2ImmutableApplication.java`, which parses
  arguments, walks directories and writes files) and code generation by
  `codeModel.build`.
- The collaborators are modelled only as functions the rules call, fixed
  per run: the schema rule, the schema store, `NameHelper`, `MakeUniqueClassName` and
  `TypeUtil.resolveType`. In particular, nested object properties are not
  compiled recursively through the object rule: the type a property
  compiles to is an input of the rule and cannot depend on classes defined
  along the way. The name helpers also do not see the package.
- The schema rule defines classes of its own in the real code model: the
  `extends` node is compiled before the class name is chosen
  (`ObjectRule.java:188-189`), and each property's type is compiled before
  its getter (`PropertyRule.java:21`). The model's registry holds only the
  classes the object rule defines itself, so the ObjectRule.Apply row's
  "registered only under the planned key" is about that registry. Classes
  the schema rule would register, and the names they would take from
  `makeUnique`, are not modelled.
- The sub-rules the object rule and the property rule call after their own
  decisions are not modelled, because they are jsonschema2pojo's and change
  only output text:
  - title, description and `javaName`;
  - the Jackson-2 `@JsonTypeInfo` for `deserializationClassProperty`;
  - dynamic properties;
  - the `required` array rule.
- `ImmutableRuleFactory.java`, `EnumRule.java` and `RequiredRule.java` only
  wire rules together, or delegate or do nothing. Of the configuration,
  the model keeps the class name prefix and suffix. The `$ref` fragment path
  delimiters (`PropertyRule.java:115`, `ObjectRule.java:201`) are passed
  through to the schema store, so they are folded into its `load` function.
  The annotation style (`ObjectRule.java:205`) only selects the
  `@JsonTypeInfo` annotation, which is left out as noted above.
- Annotator hooks (property inclusion, getter, property order) are recorded
  as the call; what the configured annotator writes is not modelled.
- Numeric defaults carry the JSON node they come from. Jackson's
  `asInt`/`asLong`/`asDouble` conversions, their truncation and floating
  point are not modelled.
- Reflection (`isFinal` through `Class.forName`) is an attribute of the type.
- ObjectRule.DefineAnnotated: every class the rule creates is public and
  abstract. For a `javaType` without a `.`, codemodel's `JCodeModel._class`
  is understood to define the class in the root package through the
  overload that takes no modifiers, which would make it public but not
  abstract. codemodel's source is not part of this model, so that case is
  not modelled.
- codemodel's case-insensitive class-name clash check and its validation of
  class names are not modelled. A class key is the exact package and simple name.
- Unused code is not modelled: `searchClassAndSuperClassesForField`,
  `searchSuperClassesForField`, `definedClassOrNullFromType`,
  `usesPolymorphicDeserialization` and the commented-out validation rules.
  `DirkTest.java` is not part of this model.
- PropertyRule.ResolveRefs: a `$ref` chain that never ends, which makes the
  source recurse without bound, is excluded by the precondition that the
  chain ends within a given number of loads.
- ObjectRule.MakeUnique: it assumes the candidate names
  `MakeUniqueClassName.makeUnique` produces from a name never repeat. This
  is what its increasing numeric suffix provides, and without it the
  source's retries need not end.
- Strings.Capitalize: only ASCII letters are upper-cased; Java's
  `Character.toTitleCase` on other letters is not modelled.
- Json.Get: Jackson objects never hold two members of the same name. The
  model does not exclude them, and `get` takes the first.
- Json.AsBoolean: a decimal number is false. The text `false` and any other
  text that is not `true` after trimming are false, as Jackson's default is.
- Concurrency is not modelled; the rules run on one thread.
