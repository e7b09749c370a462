/**
 * ObjectRule: compiles one object schema into one abstract Immutables class.
 * It resolves the supertype (`extends`), picks the class (an existing type,
 * an explicit `javaType`, or a name derived from the node name and made
 * unique in the package), annotates it, and runs the properties rule and
 * the `javaInterfaces` step on it.
 */
module ObjectRule {
  import opened Wrappers
  import opened Json
  import opened Strings
  import opened JavaTypes
  import opened CodeModel
  import opened RuleContext
  import PropertyRule
  import PropertiesRule

  // ---------------------------------------------------------------------
  // The super-schema (`getSuperSchema`)
  // ---------------------------------------------------------------------

  /** The path `getSuperSchema` asks the schema store for: `#extends`, or `#<fragment>/extends`. */
  function SuperSchemaPath(id: SchemaId): (p: string)
    ensures |p| >= 8 && p[0] == '#' && p[|p| - 7..] == "extends"
    ensures id.fragment.None? <==> |p| == 8
    ensures id.fragment.Some? ==> p[1..|p| - 8] == id.fragment.value && p[|p| - 8..] == "/extends"
  {
    match id.fragment
    case None => "#extends"
    case Some(f) => "#" + f + "/extends"
  }

  /** The fragment a super-schema path was built from; `None` for a string no fragment gives. */
  function SuperSchemaFragment(path: string): Option<Option<string>> {
    if path == "#extends" then Some(None)
    else if |path| >= 9 && path[0] == '#' && path[|path| - 8..] == "/extends" then Some(Some(path[1..|path| - 8]))
    else None
  }

  /** The path gives back the fragment it was built from, so different fragments give different paths. */
  lemma SuperSchemaPathRoundTrip(id: SchemaId)
    ensures SuperSchemaFragment(SuperSchemaPath(id)) == Some(id.fragment)
  {
    match id.fragment
    case None =>
    case Some(f) =>
      var p := "#" + f + "/extends";
      assert p[1..|p| - 8] == f;
      assert p[|p| - 8..] == "/extends";
  }

  /** Two schema ids whose super-schema paths agree have the same fragment. */
  lemma SuperSchemaPathInjective(a: SchemaId, b: SchemaId)
    requires SuperSchemaPath(a) == SuperSchemaPath(b)
    ensures a.fragment == b.fragment
  {
    SuperSchemaPathRoundTrip(a);
    SuperSchemaPathRoundTrip(b);
  }

  /**
   * `getSuperType`: `extendsJavaClass` is refused; without `extends` there
   * is no supertype; otherwise the `extends` node compiled (by the schema
   * rule) as `<nodeName>Parent` against the super-schema.
   */
  function SuperType(env: Env, nodeName: string, node: Json, schema: SchemaId): (r: Result<Option<JType>, Fault>)
    ensures Has(node, "extendsJavaClass") <==> r == Failure(ExtendsJavaClassUnsupported)
    ensures r.Failure? ==> r.error == ExtendsJavaClassUnsupported
    ensures r.Success? ==> (r.value.Some? <==> Has(node, "extends"))
    ensures r.Success? && r.value.Some? ==>
      r.value.value == env.schemaType(nodeName + "Parent", Get(node, "extends").value,
                                      env.load(schema, SuperSchemaPath(schema)).id)
  {
    if Has(node, "extendsJavaClass") then Failure(ExtendsJavaClassUnsupported)
    else if !Has(node, "extends") then Success(None)
    else
      var superSchema := env.load(schema, SuperSchemaPath(schema));
      Success(Some(env.schemaType(nodeName + "Parent", Get(node, "extends").value, superSchema.id)))
  }

  // ---------------------------------------------------------------------
  // The derived class name (`getClassName`, `createFullFieldName`, `makeUnique`)
  // ---------------------------------------------------------------------

  /** The length of an optional text; `null` counts as absent. */
  function OptLength(t: Option<string>): nat {
    if t.Some? then |t.value| else 0
  }

  /** `createFullFieldName`: the prefix, the name and the suffix, a `null` one left out. */
  function FullFieldName(name: string, prefix: Option<string>, suffix: Option<string>): (r: string)
    ensures |r| == OptLength(prefix) + |name| + OptLength(suffix)
    ensures r[OptLength(prefix)..OptLength(prefix) + |name|] == name
    ensures prefix.Some? ==> r[..|prefix.value|] == prefix.value
    ensures suffix.Some? ==> r[|r| - |suffix.value|..] == suffix.value
  {
    var p := if prefix.Some? then prefix.value else "";
    var s := if suffix.Some? then suffix.value else "";
    var r := p + name + s;
    assert r[|p|..|p| + |name|] == name;
    r
  }

  /**
   * The name `getClassName` builds before the name helpers clean it: the
   * field name capitalized, between the prefix and the suffix.
   */
  function RawClassName(env: Env, nodeName: string, node: Json): (r: string)
    ensures var fieldName, p := env.fieldName(nodeName, node), OptLength(env.config.classNamePrefix);
      && |r| == p + |fieldName| + OptLength(env.config.classNameSuffix)
      && (fieldName != [] ==> r[p] == UpperAscii(fieldName[0]) && r[p + 1..p + |fieldName|] == fieldName[1..])
      && (env.config.classNamePrefix.Some? ==> r[..p] == env.config.classNamePrefix.value)
      && (env.config.classNameSuffix.Some? ==> r[|r| - OptLength(env.config.classNameSuffix)..] == env.config.classNameSuffix.value)
  {
    var fieldName := env.fieldName(nodeName, node);
    var capitalized := Capitalize(fieldName);
    var r := FullFieldName(capitalized, env.config.classNamePrefix, env.config.classNameSuffix);
    var p := OptLength(env.config.classNamePrefix);
    assert r[p..p + |fieldName|] == capitalized;
    assert fieldName != [] ==> r[p + 1..p + |fieldName|] == capitalized[1..];
    r
  }

  /** The name `getClassName` hands to `makeUnique`: the raw name with illegal characters replaced, then normalized. */
  function ClassNameCandidate(env: Env, nodeName: string, node: Json): string {
    env.normalize(env.replaceIllegal(RawClassName(env, nodeName, node)))
  }

  /** The taken keys of package `pkg` that `makeUnique` could still meet from candidate `c` on. */
  ghost function Taken(f: string -> string, c: string, pkg: string, keys: set<ClassKey>): set<ClassKey> {
    set k | k in keys && k.pkg == pkg && exists m: nat :: k.name == Iterate(f, c, m)
  }

  /** The candidates after `f(c)` are those after `c`, one step later. */
  lemma {:induction false} IterateShift(f: string -> string, c: string, m: nat)
    ensures Iterate(f, f(c), m) == Iterate(f, c, m + 1)
    decreases m
  {
    if m > 0 {
      IterateShift(f, c, m - 1);
    }
  }

  /** A taken candidate leaves the keys still to meet, and it is never met again. */
  lemma TakenShrinks(f: string -> string, c: string, pkg: string, keys: set<ClassKey>)
    requires NeverRevisits(f) && ClassKey(pkg, c) in keys
    ensures Taken(f, f(c), pkg, keys) < Taken(f, c, pkg, keys)
  {
    forall k | k in Taken(f, f(c), pkg, keys)
      ensures k in Taken(f, c, pkg, keys)
    {
      var m: nat :| k.name == Iterate(f, f(c), m);
      IterateShift(f, c, m);
    }
    assert c == Iterate(f, c, 0);
    assert ClassKey(pkg, c) in Taken(f, c, pkg, keys);
    forall m: nat
      ensures Iterate(f, f(c), m) != c
    {
      IterateShift(f, c, m);
      assert Iterate(f, c, 0) != Iterate(f, c, m + 1);
    }
  }

  /**
   * How many times `makeUnique` is retried from `c`: every earlier candidate
   * is taken, this one is free, and there are no more retries than taken
   * keys (the candidates never repeat, so each retry uses up one of them).
   */
  function Retries(f: string -> string, c: string, pkg: string, keys: set<ClassKey>): (n: nat)
    requires NeverRevisits(f)
    ensures ClassKey(pkg, Iterate(f, c, n)) !in keys
    ensures forall m :: 0 <= m < n ==> ClassKey(pkg, Iterate(f, c, m)) in keys
    ensures n <= |Taken(f, c, pkg, keys)|
    decreases Taken(f, c, pkg, keys)
  {
    if ClassKey(pkg, c) !in keys then 0
    else
      TakenShrinks(f, c, pkg, keys);
      ProperSubsetCard(Taken(f, f(c), pkg, keys), Taken(f, c, pkg, keys));
      var n := Retries(f, f(c), pkg, keys);
      IterateShift(f, c, n);
      forall m | 1 <= m < n + 1
        ensures Iterate(f, f(c), m - 1) == Iterate(f, c, m)
      {
        IterateShift(f, c, m - 1);
      }
      n + 1
  }

  /** The retries never outnumber the classes already registered. */
  lemma RetriesBounded(f: string -> string, c: string, pkg: string, keys: set<ClassKey>)
    requires NeverRevisits(f)
    ensures Retries(f, c, pkg, keys) <= |keys|
  {
    SubsetCard(Taken(f, c, pkg, keys), keys);
  }

  lemma {:induction false} SubsetCard<T>(a: set<T>, b: set<T>)
    requires a <= b
    ensures |a| <= |b|
    decreases |b|
  {
    if a != {} {
      var x :| x in a;
      SubsetCard(a - {x}, b - {x});
    }
  }

  lemma ProperSubsetCard<T>(a: set<T>, b: set<T>)
    requires a < b
    ensures |a| < |b|
  {
    assert b - a != {};
    var x :| x in b - a;
    SubsetCard(a, b - {x});
  }

  /** The name `makeUnique` returns for `c`: the first candidate not taken in the package. */
  function UniqueName(f: string -> string, c: string, pkg: string, keys: set<ClassKey>): (r: string)
    requires NeverRevisits(f)
    ensures ClassKey(pkg, r) !in keys
    ensures ClassKey(pkg, c) !in keys ==> r == c
  {
    Iterate(f, c, Retries(f, c, pkg, keys))
  }

  /** A taken candidate gives the same unique name as the candidate after it. */
  lemma UniqueNameStep(f: string -> string, c: string, pkg: string, keys: set<ClassKey>)
    requires NeverRevisits(f) && ClassKey(pkg, c) in keys
    ensures UniqueName(f, c, pkg, keys) == UniqueName(f, f(c), pkg, keys)
  {
    IterateShift(f, c, Retries(f, f(c), pkg, keys));
  }

  /**
   * `makeUnique`: tries to define a class under each candidate in turn; the
   * first that can be defined is removed again and its name returned.
   */
  method MakeUnique(env: Env, className: string, pkg: string, registry: ClassRegistry) returns (name: string)
    requires NeverRevisits(env.nextCandidate)
    modifies registry
    ensures registry.classes == old(registry.classes)
    ensures name == UniqueName(env.nextCandidate, className, pkg, old(registry.classes).Keys)
  {
    ghost var keys := registry.classes.Keys;
    name := className;
    while true
      invariant registry.classes == old(registry.classes)
      invariant UniqueName(env.nextCandidate, name, pkg, keys) == UniqueName(env.nextCandidate, className, pkg, keys)
      decreases Taken(env.nextCandidate, name, pkg, keys)
    {
      var d := registry.DefineClass(ClassKey(pkg, name), PublicOnly, ConcreteClass);
      if d.Created? {
        registry.Remove(ClassKey(pkg, name));
        assert registry.classes == old(registry.classes);
        return;
      }
      UniqueNameStep(env.nextCandidate, name, pkg, keys);
      TakenShrinks(env.nextCandidate, name, pkg, keys);
      name := env.nextCandidate(name);
    }
  }

  /** `getClassName`: the derived candidate, made unique in `pkg`. */
  method GetClassName(env: Env, nodeName: string, node: Json, pkg: string, registry: ClassRegistry) returns (name: string)
    requires NeverRevisits(env.nextCandidate)
    modifies registry
    ensures registry.classes == old(registry.classes)
    ensures name == UniqueName(env.nextCandidate, ClassNameCandidate(env, nodeName, node), pkg, old(registry.classes).Keys)
    ensures ClassKey(pkg, name) !in old(registry.classes)
  {
    name := MakeUnique(env, ClassNameCandidate(env, nodeName, node), pkg, registry);
  }

  // ---------------------------------------------------------------------
  // The class (`createClass`, `addImmutableAnnotations`)
  // ---------------------------------------------------------------------

  /**
   * The name `createClass` resolves for `existingJavaType`: the text before
   * the first `<`, then `<` and the rest when there is one; that is, the
   * whole text, generic arguments included.
   */
  function ExistingTypeName(text: string): (r: string)
    ensures r == text
  {
    var fqn := SubstringBefore(text, '<');
    if '<' in text then
      SplitAtFirst(text, '<');
      fqn + "<" + SubstringAfter(text, '<')
    else fqn
  }

  /** Java's rendering of a `String` in a concatenation: `null` prints as `"null"`. */
  function JavaText(t: Option<string>): string {
    if t.Some? then t.value else "null"
  }

  /**
   * The `javaType` name with the prefix put after its last `.` and the
   * suffix appended; unchanged when it is empty or ends in `.`. A `null`
   * prefix or suffix is concatenated as Java does, as the text `null`.
   */
  function DecoratedJavaType(fqn: string, config: Config): (r: string)
    ensures fqn == [] || fqn[|fqn| - 1] == '.' ==> r == fqn
    ensures fqn != [] && fqn[|fqn| - 1] != '.' ==>
      |r| == |fqn| + |JavaText(config.classNamePrefix)| + |JavaText(config.classNameSuffix)|
  {
    var index := LastIndexOf(fqn, '.') + 1;
    if index < |fqn| then
      fqn[..index] + JavaText(config.classNamePrefix) + fqn[index..] + JavaText(config.classNameSuffix)
    else fqn
  }

  /**
   * `JCodeModel._class(fqn)`: the package is the text before the last `.`,
   * the class name the text after it; a name without `.` is in the root package.
   */
  function SplitQualified(fqn: string): (k: ClassKey)
    ensures '.' !in k.name
    ensures '.' !in fqn ==> k == ClassKey("", fqn)
  {
    var i := LastIndexOf(fqn, '.');
    if i < 0 then ClassKey("", fqn) else ClassKey(fqn[..i], fqn[i + 1..])
  }

  /** Splitting the qualified name of a class gives back its package and name. */
  lemma SplitQualifiedRoundTrip(k: ClassKey)
    requires '.' !in k.name
    ensures SplitQualified(QualifiedName(k)) == k
  {
    if k.pkg != "" {
      var q := k.pkg + "." + k.name;
      assert q[|k.pkg|] == '.';
      assert q[|k.pkg| + 1..] == k.name;
      assert q[..|k.pkg|] == k.pkg;
    }
  }

  /**
   * Decoration changes only the class name: the package stays, and the
   * class name gets the prefix before it and the suffix after it, provided
   * neither contains a `.`.
   */
  lemma DecorationKeepsPackage(fqn: string, config: Config)
    requires fqn != [] && fqn[|fqn| - 1] != '.'
    requires '.' !in JavaText(config.classNamePrefix) && '.' !in JavaText(config.classNameSuffix)
    ensures var before := SplitQualified(fqn);
      SplitQualified(DecoratedJavaType(fqn, config))
        == ClassKey(before.pkg, JavaText(config.classNamePrefix) + before.name + JavaText(config.classNameSuffix))
  {
    var p, x := JavaText(config.classNamePrefix), JavaText(config.classNameSuffix);
    var i := LastIndexOf(fqn, '.');
    var head, tail := fqn[..i + 1], fqn[i + 1..];
    var r := head + p + tail + x;
    assert r == DecoratedJavaType(fqn, config);
    var name := p + tail + x;
    assert '.' !in name by {
      assert forall j :: 0 <= j < |name| ==> name[j] == (if j < |p| then p[j] else if j < |p| + |tail| then tail[j - |p|] else x[j - |p| - |tail|]);
    }
    if i < 0 {
      assert head == [];
      assert r == name;
    } else {
      assert r == fqn[..i] + "." + name;
      SplitQualifiedRoundTrip(ClassKey(fqn[..i], name));
      if fqn[..i] == "" {
        assert r == "." + name;
        assert LastIndexOf(r, '.') == 0 by {
          assert r[0] == '.';
          assert r[1..] == name;
        }
      }
    }
  }

  /** Where `createClass` leaves the rule. */
  datatype Choice =
    | UseType(t: JType)          // a type to return with no class defined
    | UseExisting(key: ClassKey) // a class already defined under `key`, returned as it is
    | Create(key: ClassKey)      // a new class to define under `key`

  /** The type an `existingJavaType` text names: a primitive, or the class resolved in the package. */
  function ExistingType(env: Env, pkg: string, text: string): (t: JType)
    ensures PrimitiveNamed(SubstringBefore(text, '<')).Some? ==> t == Primitive(PrimitiveNamed(SubstringBefore(text, '<')).value)
    ensures PrimitiveNamed(SubstringBefore(text, '<')).None? ==> t == env.resolveType(pkg, text)
  {
    match PrimitiveNamed(SubstringBefore(text, '<'))
    case Some(p) => Primitive(p)
    case None => env.resolveType(pkg, ExistingTypeName(text))
  }

  /**
   * `createClass`'s choice of class: `existingJavaType` names a type to use
   * (a primitive, or the resolved name with its generic arguments);
   * `javaType` is refused when it names a primitive or has generic
   * arguments and otherwise gives, decorated, the class to define unless
   * one is defined there already; otherwise the derived name, made unique in
   * the package, names a class that is always new.
   */
  function ClassChoice(env: Env, nodeName: string, node: Json, pkg: string, keys: set<ClassKey>): (r: Result<Choice, Fault>)
    requires NeverRevisits(env.nextCandidate)
    ensures Has(node, "existingJavaType") ==> r.Success? && r.value.UseType?
    ensures r.Success? && r.value.UseType? ==> Has(node, "existingJavaType")
    ensures r.Failure? ==> !Has(node, "existingJavaType") && Has(node, "javaType")
    ensures r.Success? && r.value.Create? ==> r.value.key !in keys
    ensures r.Success? && r.value.UseExisting? ==> r.value.key in keys && Has(node, "javaType")
    ensures !Has(node, "existingJavaType") && !Has(node, "javaType") ==>
      r == Success(Create(ClassKey(pkg, UniqueName(env.nextCandidate, ClassNameCandidate(env, nodeName, node), pkg, keys))))
  {
    if Has(node, "existingJavaType") then
      Success(UseType(ExistingType(env, pkg, AsText(Get(node, "existingJavaType").value))))
    else if Has(node, "javaType") then
      var fqn := AsText(Get(node, "javaType").value);
      if PrimitiveNamed(fqn).Some? then Failure(JavaTypePrimitive(fqn))
      else if '<' in fqn then Failure(JavaTypeGeneric(fqn))
      else
        var key := SplitQualified(DecoratedJavaType(fqn, env.config));
        if key in keys then Success(UseExisting(key)) else Success(Create(key))
    else
      Success(Create(ClassKey(pkg, UniqueName(env.nextCandidate, ClassNameCandidate(env, nodeName, node), pkg, keys))))
  }

  /**
   * `existingJavaType` short-circuits: the primitive its text before `<`
   * names, else the whole text, generic arguments included, resolved in the package.
   */
  lemma ExistingJavaTypeUsed(env: Env, nodeName: string, node: Json, pkg: string, keys: set<ClassKey>)
    requires NeverRevisits(env.nextCandidate)
    requires Has(node, "existingJavaType")
    ensures var text := AsText(Get(node, "existingJavaType").value);
      && (PrimitiveNamed(SubstringBefore(text, '<')).Some? ==>
            ClassChoice(env, nodeName, node, pkg, keys) == Success(UseType(Primitive(PrimitiveNamed(SubstringBefore(text, '<')).value))))
      && (PrimitiveNamed(SubstringBefore(text, '<')).None? ==>
            ClassChoice(env, nodeName, node, pkg, keys) == Success(UseType(env.resolveType(pkg, text))))
  {
  }

  /** A `javaType` that names a primitive or has generic arguments is refused, with its text. */
  lemma JavaTypeRefusals(env: Env, nodeName: string, node: Json, pkg: string, keys: set<ClassKey>)
    requires NeverRevisits(env.nextCandidate)
    requires !Has(node, "existingJavaType") && Has(node, "javaType")
    ensures var fqn := AsText(Get(node, "javaType").value);
      && (PrimitiveNamed(fqn).Some? ==> ClassChoice(env, nodeName, node, pkg, keys) == Failure(JavaTypePrimitive(fqn)))
      && (PrimitiveNamed(fqn).None? && '<' in fqn ==> ClassChoice(env, nodeName, node, pkg, keys) == Failure(JavaTypeGeneric(fqn)))
      && (PrimitiveNamed(fqn).None? && '<' !in fqn ==>
            ClassChoice(env, nodeName, node, pkg, keys).Success?
            && ClassChoice(env, nodeName, node, pkg, keys).value.key == SplitQualified(DecoratedJavaType(fqn, env.config)))
  {
  }

  /** The annotations `createClass` gives a new class: the inclusion hook, then `addImmutableAnnotations`. */
  function ImmutableAnnotations(key: ClassKey): (r: seq<Annotation>)
    ensures |r| == 4 && r[0] == InclusionHook && r[1] == ValueImmutable && r[2] == ValueModifiable
    ensures r[3].DeserializeAs? && key.pkg != "" ==> r[3].target == QualifiedName(ClassKey(key.pkg, "Immutable" + key.name))
    ensures r[3].DeserializeAs? && key.pkg == "" ==> r[3].target == "." + QualifiedName(ClassKey(key.pkg, "Immutable" + key.name))
    ensures r[3].DeserializeAs?
  {
    [InclusionHook, ValueImmutable, ValueModifiable, DeserializeAs(key.pkg + ".Immutable" + key.name)]
  }

  /** What the object rule returns: a type as it is, a class defined before, or the class it defined. */
  datatype Compiled =
    | TypeAsIs(t: JType)
    | ExistingClass(existing: DefinedClass)
    | NewClass(created: DefinedClass)

  /**
   * The end of `createClass`: `_class(PUBLIC | ABSTRACT, name, CLASS)` under
   * `key`, then the inclusion hook and `addImmutableAnnotations` on the new
   * class; the class already there when the key is taken.
   */
  method DefineAnnotated(key: ClassKey, registry: ClassRegistry) returns (r: Result<Compiled, Fault>)
    modifies registry
    ensures key in old(registry.classes) ==>
      r == Success(ExistingClass(old(registry.classes)[key])) && registry.classes == old(registry.classes)
    ensures key !in old(registry.classes) ==>
      && r.Success? && r.value.NewClass?
      && var c := r.value.created;
      && fresh(c) && registry.classes == old(registry.classes)[key := c]
      && c.key == key && c.mods == PublicAbstract && c.kind == ConcreteClass
      && c.annotations == ImmutableAnnotations(key) && c.interfaces == [] && c.methods == []
  {
    var d := registry.DefineClass(key, PublicAbstract, ConcreteClass);
    if d.AlreadyExists? {
      return Success(ExistingClass(d.existing));
    }
    var c := d.created;
    c.Annotate(InclusionHook);
    c.Annotate(ValueImmutable);
    c.Annotate(ValueModifiable);
    c.Annotate(DeserializeAs(c.key.pkg + ".Immutable" + c.key.name));
    return Success(NewClass(c));
  }

  /**
   * The first half of `createClass`: the class it settles on, worked out
   * from the node. A name it only checks (for a derived name) leaves the
   * registry as it was.
   */
  method Choose(env: Env, nodeName: string, node: Json, pkg: string, registry: ClassRegistry)
    returns (choice: Result<Choice, Fault>)
    requires NeverRevisits(env.nextCandidate)
    modifies registry
    ensures choice == ClassChoice(env, nodeName, node, pkg, old(registry.classes).Keys)
    ensures registry.classes == old(registry.classes)
  {
    if Has(node, "existingJavaType") {
      choice := ChooseExisting(env, nodeName, node, pkg, registry.classes.Keys);
      return;
    }
    if Has(node, "javaType") {
      choice := ChooseJavaType(env, nodeName, node, pkg, registry.classes.Keys);
      return;
    }
    var name := GetClassName(env, nodeName, node, pkg, registry);
    return Success(Create(ClassKey(pkg, name)));
  }

  /** `existingJavaType`: the primitive named before the first `<`, else the whole text resolved. */
  method ChooseExisting(env: Env, nodeName: string, node: Json, pkg: string, ghost keys: set<ClassKey>)
    returns (choice: Result<Choice, Fault>)
    requires NeverRevisits(env.nextCandidate) && Has(node, "existingJavaType")
    ensures choice == ClassChoice(env, nodeName, node, pkg, keys)
  {
    var text := AsText(Get(node, "existingJavaType").value);
    var fqn := SubstringBefore(text, '<');
    var p := PrimitiveNamed(fqn);
    if p.Some? {
      return Success(UseType(Primitive(p.value)));
    }
    var name := fqn + (if '<' in text then "<" + SubstringAfter(text, '<') else "");
    assert name == ExistingTypeName(text);
    choice := Success(UseType(env.resolveType(pkg, name)));
    assert choice == Success(UseType(ExistingType(env, pkg, text)));
  }

  /** `javaType`: refused when primitive or generic, else decorated and split into a key. */
  method ChooseJavaType(env: Env, nodeName: string, node: Json, pkg: string, keys: set<ClassKey>)
    returns (choice: Result<Choice, Fault>)
    requires NeverRevisits(env.nextCandidate) && !Has(node, "existingJavaType") && Has(node, "javaType")
    ensures choice == ClassChoice(env, nodeName, node, pkg, keys)
  {
    var fqn := AsText(Get(node, "javaType").value);
    if PrimitiveNamed(fqn).Some? {
      return Failure(JavaTypePrimitive(fqn));
    }
    if '<' in fqn {
      return Failure(JavaTypeGeneric(fqn));
    }
    var key := SplitQualified(DecoratedJavaType(fqn, env.config));
    return if key in keys then Success(UseExisting(key)) else Success(Create(key));
  }

  /**
   * `createClass`: the choice of class carried out on the registry. A
   * class it defines is public, abstract and annotated; a name it only
   * checks (for a derived name) leaves the registry as it was.
   */
  method CreateClass(env: Env, nodeName: string, node: Json, pkg: string, registry: ClassRegistry)
    returns (r: Result<Compiled, Fault>)
    requires NeverRevisits(env.nextCandidate)
    modifies registry
    ensures match ClassChoice(env, nodeName, node, pkg, old(registry.classes).Keys)
      case Failure(e) => r == Failure(e) && registry.classes == old(registry.classes)
      case Success(UseType(t)) => r == Success(TypeAsIs(t)) && registry.classes == old(registry.classes)
      case Success(UseExisting(k)) =>
        r == Success(ExistingClass(old(registry.classes)[k])) && registry.classes == old(registry.classes)
      case Success(Create(k)) =>
        && r.Success? && r.value.NewClass?
        && var c := r.value.created;
        && fresh(c) && registry.classes == old(registry.classes)[k := c]
        && c.key == k && c.mods == PublicAbstract && c.kind == ConcreteClass
        && c.annotations == ImmutableAnnotations(k) && c.interfaces == [] && c.methods == []
  {
    var choice := Choose(env, nodeName, node, pkg, registry);
    match choice
    case Failure(e) => return Failure(e);
    case Success(UseType(t)) => return Success(TypeAsIs(t));
    case Success(UseExisting(k)) => r := DefineAnnotated(k, registry);
    case Success(Create(k)) => r := DefineAnnotated(k, registry);
  }

  // ---------------------------------------------------------------------
  // The rule (`apply`, `addInterfaces`)
  // ---------------------------------------------------------------------

  /**
   * What `apply` decides before it touches anything but the registry's
   * trial entries: `extendsJavaClass` and a supertype that is a
   * non-interface class are refused, a primitive or final supertype is
   * returned as it is, and otherwise `createClass` chooses.
   */
  function Plan(env: Env, nodeName: string, node: Json, schema: SchemaId, pkg: string, keys: set<ClassKey>): (r: Result<Choice, Fault>)
    requires NeverRevisits(env.nextCandidate)
    ensures Has(node, "extendsJavaClass") ==> r == Failure(ExtendsJavaClassUnsupported)
    ensures !Has(node, "extendsJavaClass") && !Has(node, "extends") ==> r == ClassChoice(env, nodeName, node, pkg, keys)
    ensures SuperType(env, nodeName, node, schema).Success? && SuperType(env, nodeName, node, schema).value.Some? ==>
      var t := SuperType(env, nodeName, node, schema).value.value;
      && (IsPrimitive(t) || IsFinal(t) ==> r == Success(UseType(t)))
      && (!IsPrimitive(t) && !IsFinal(t) && !IsInterface(t) ==> r == Failure(CannotExtendClass))
      && (!IsPrimitive(t) && !IsFinal(t) && IsInterface(t) ==> r == ClassChoice(env, nodeName, node, pkg, keys))
  {
    match SuperType(env, nodeName, node, schema)
    case Failure(e) => Failure(e)
    case Success(None) => ClassChoice(env, nodeName, node, pkg, keys)
    case Success(Some(t)) =>
      if IsPrimitive(t) || IsFinal(t) then Success(UseType(t))
      else if !IsInterface(Box(t)) then Failure(CannotExtendClass)
      else ClassChoice(env, nodeName, node, pkg, keys)
  }

  /** A plan never redefines a class: it creates only under keys not yet taken, and reuses only taken ones. */
  lemma PlanNeverReplaces(env: Env, nodeName: string, node: Json, schema: SchemaId, pkg: string, keys: set<ClassKey>)
    requires NeverRevisits(env.nextCandidate)
    ensures var r := Plan(env, nodeName, node, schema, pkg, keys);
      && (r.Success? && r.value.Create? ==> r.value.key !in keys)
      && (r.Success? && r.value.UseExisting? ==> r.value.key in keys)
  {
  }

  /** The interfaces `addInterfaces` adds: each element's text resolved in the package, in order. */
  function InterfaceTypes(env: Env, pkg: string, es: seq<Json>): (r: seq<JType>)
    ensures |r| == |es|
    ensures forall i :: 0 <= i < |es| ==> r[i] == env.resolveType(pkg, AsText(es[i]))
    decreases |es|
  {
    if es == [] then []
    else InterfaceTypes(env, pkg, es[..|es| - 1]) + [env.resolveType(pkg, AsText(es[|es| - 1]))]
  }

  /** `addInterfaces`: the class implements each listed interface, in order. */
  method AddInterfaces(env: Env, cls: DefinedClass, javaInterfaces: Json)
    modifies cls`interfaces
    ensures cls.interfaces == old(cls.interfaces) + InterfaceTypes(env, cls.key.pkg, Elements(javaInterfaces))
  {
    var es := Elements(javaInterfaces);
    for i := 0 to |es|
      invariant cls.interfaces == old(cls.interfaces) + InterfaceTypes(env, cls.key.pkg, es[..i])
    {
      cls.Implement(env.resolveType(cls.key.pkg, AsText(es[i])));
      assert es[..i + 1][..i] == es[..i];
    }
    assert es[..|es|] == es;
  }

  /** The run of the properties rule over the node's `properties`; nothing when it has none. */
  function PropertiesRun(env: Env, node: Json, schema: SchemaId, content: Json, depth: nat): PropertiesRule.Batch
    requires Get(node, "properties").Some? ==> PropertiesRule.PropertiesEnd(env, schema, Get(node, "properties").value, depth)
  {
    match Get(node, "properties")
    case None => PropertiesRule.Batch([], None)
    case Some(p) => PropertiesRule.Run(PropertiesRule.Outcomes(env, p, schema, content, depth))
  }

  /** The property-order hook the properties rule adds once every property compiled. */
  function OrderHook(node: Json): seq<Annotation> {
    match Get(node, "properties")
    case None => []
    case Some(p) => [PropertyOrderHook(FieldNames(p))]
  }

  /** The interfaces the node's `javaInterfaces` lists, resolved in `pkg`; none when it has none. */
  function DeclaredInterfaces(env: Env, pkg: string, node: Json): seq<JType> {
    match Get(node, "javaInterfaces")
    case None => []
    case Some(list) => InterfaceTypes(env, pkg, Elements(list))
  }

  /**
   * A class `apply` defined, once it is done with it: the supertype first
   * among its interfaces, a getter per property compiled, and, unless a
   * property faulted, the property-order hook and the `javaInterfaces`.
   */
  ghost predicate Finished(env: Env, node: Json, schema: SchemaId, content: Json, depth: nat,
                           superType: Option<JType>, c: DefinedClass, res: Result<Compiled, Fault>)
    requires Get(node, "properties").Some? ==> PropertiesRule.PropertiesEnd(env, schema, Get(node, "properties").value, depth)
    reads c
  {
    var b := PropertiesRun(env, node, schema, content, depth);
    var superPart := if superType.Some? then [superType.value] else [];
    && c.methods == b.getters
    && (b.fault.Some? ==>
          res == Failure(b.fault.value) && c.annotations == ImmutableAnnotations(c.key) && c.interfaces == superPart)
    && (b.fault.None? ==>
          && res == Success(NewClass(c))
          && c.annotations == ImmutableAnnotations(c.key) + OrderHook(node)
          && c.interfaces == superPart + DeclaredInterfaces(env, c.key.pkg, node))
  }

  /** The properties rule on the node's `properties`, in the terms of its run. */
  method CompileProperties(env: Env, nodeName: string, node: Json, jclass: DefinedClass, schema: Schema, depth: nat)
    returns (fault: Option<Fault>)
    requires Get(node, "properties").Some? ==> PropertiesRule.PropertiesEnd(env, schema.id, Get(node, "properties").value, depth)
    modifies jclass`methods, jclass`annotations
    ensures var b := PropertiesRun(env, node, schema.id, schema.content, depth);
      && jclass.methods == old(jclass.methods) + b.getters
      && fault == b.fault
      && jclass.annotations == old(jclass.annotations) + (if b.fault.None? then OrderHook(node) else [])
  {
    var properties := PropertiesRule.Apply(env, nodeName, Get(node, "properties"), jclass, schema, depth);
    fault := if properties.Failure? then Some(properties.error) else None;
  }

  /** The interfaces the node's `javaInterfaces` lists, added to the class in order. */
  method AddDeclaredInterfaces(env: Env, node: Json, jclass: DefinedClass)
    modifies jclass`interfaces
    ensures jclass.interfaces == old(jclass.interfaces) + DeclaredInterfaces(env, jclass.key.pkg, node)
  {
    if Has(node, "javaInterfaces") {
      AddInterfaces(env, jclass, Get(node, "javaInterfaces").value);
    }
  }

  /** The properties and the declared interfaces of a class whose supertype is in place. */
  method Complete(env: Env, nodeName: string, node: Json, jclass: DefinedClass, schema: Schema, depth: nat,
                  superType: Option<JType>)
    returns (res: Result<Compiled, Fault>)
    requires Get(node, "properties").Some? ==> PropertiesRule.PropertiesEnd(env, schema.id, Get(node, "properties").value, depth)
    requires jclass.annotations == ImmutableAnnotations(jclass.key) && jclass.methods == []
    requires jclass.interfaces == if superType.Some? then [superType.value] else []
    modifies jclass`methods, jclass`annotations, jclass`interfaces
    ensures Finished(env, node, schema.id, schema.content, depth, superType, jclass, res)
  {
    ghost var superPart := jclass.interfaces;
    var fault := CompileProperties(env, nodeName, node, jclass, schema, depth);
    ghost var b := PropertiesRun(env, node, schema.id, schema.content, depth);
    assert jclass.methods == b.getters;
    if fault.Some? {
      assert jclass.annotations == ImmutableAnnotations(jclass.key);
      return Failure(fault.value);
    }
    assert jclass.annotations == ImmutableAnnotations(jclass.key) + OrderHook(node);
    AddDeclaredInterfaces(env, node, jclass);
    assert jclass.interfaces == superPart + DeclaredInterfaces(env, jclass.key.pkg, node);
    return Success(NewClass(jclass));
  }

  /** The rest of `apply` on the class it defined: supertype, schema type, properties, interfaces. */
  method Populate(env: Env, nodeName: string, node: Json, jclass: DefinedClass, schema: Schema, depth: nat,
                  superType: Option<JType>)
    returns (res: Result<Compiled, Fault>)
    requires Get(node, "properties").Some? ==> PropertiesRule.PropertiesEnd(env, schema.id, Get(node, "properties").value, depth)
    requires jclass.annotations == ImmutableAnnotations(jclass.key) && jclass.interfaces == [] && jclass.methods == []
    modifies jclass, schema`javaType
    ensures schema.javaType == if old(schema.javaType).None? then Some(jclass.AsType()) else old(schema.javaType)
    ensures jclass.mods == old(jclass.mods)
    ensures Finished(env, node, schema.id, schema.content, depth, superType, jclass, res)
  {
    if superType.Some? {
      jclass.Implement(superType.value);
    }
    schema.SetJavaTypeIfEmpty(jclass.AsType());
    res := Complete(env, nodeName, node, jclass, schema, depth, superType);
  }

  /**
   * `apply`: compiles the object node in package `pkg`. What it returns and
   * what it leaves in the registry and on the schema follow the plan: a
   * refusal or a type used as it is changes nothing; a class defined before
   * is returned as it is; a new class is registered under the planned key
   * and finished.
   */
  method Apply(env: Env, nodeName: string, node: Json, pkg: string, schema: Schema, registry: ClassRegistry, depth: nat)
    returns (res: Result<Compiled, Fault>)
    requires NeverRevisits(env.nextCandidate)
    requires Get(node, "properties").Some? ==> PropertiesRule.PropertiesEnd(env, schema.id, Get(node, "properties").value, depth)
    modifies registry, schema`javaType
    ensures match Plan(env, nodeName, node, schema.id, pkg, old(registry.classes).Keys)
      case Failure(e) =>
        res == Failure(e) && registry.classes == old(registry.classes) && schema.javaType == old(schema.javaType)
      case Success(UseType(t)) =>
        res == Success(TypeAsIs(t)) && registry.classes == old(registry.classes) && schema.javaType == old(schema.javaType)
      case Success(UseExisting(k)) =>
        && res == Success(ExistingClass(old(registry.classes)[k]))
        && registry.classes == old(registry.classes) && schema.javaType == old(schema.javaType)
      case Success(Create(k)) =>
        && k in registry.classes
        && var c := registry.classes[k];
        && fresh(c) && registry.classes == old(registry.classes)[k := c]
        && c.key == k && c.mods == PublicAbstract && c.kind == ConcreteClass
        && schema.javaType == (if old(schema.javaType).None? then Some(c.AsType()) else old(schema.javaType))
        && Finished(env, node, schema.id, schema.content, depth, SuperType(env, nodeName, node, schema.id).value, c, res)
  {
    var superType := SuperType(env, nodeName, node, schema.id);
    if superType.Failure? {
      return Failure(superType.error);
    }
    if superType.value.Some? {
      var t := superType.value.value;
      if IsPrimitive(t) || IsFinal(t) {
        return Success(TypeAsIs(t));
      }
      if !IsInterface(Box(t)) {
        return Failure(CannotExtendClass);
      }
    }
    var created := CreateClass(env, nodeName, node, pkg, registry);
    if created.Failure? || !created.value.NewClass? {
      return created;
    }
    var jclass := created.value.created;
    res := Populate(env, nodeName, node, jclass, schema, depth, superType.value);
  }
}
