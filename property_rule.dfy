/**
 * PropertyRule: compiles one schema property into one getter of the class
 * being generated. The getter is abstract unless the property has a
 * `default`; a defaulted getter is `@Value.Default` and returns the default;
 * an optional getter with no default is `@Nullable` unless its node is an array.
 */
module PropertyRule {
  import opened Wrappers
  import opened Json
  import opened JavaTypes
  import opened CodeModel
  import opened RuleContext

  /** `getOriginalOrRefProperty`: the property node's own member wins over the referenced node's. */
  function OriginalOrRef(original: Json, node: Json, key: string): (r: Option<Json>)
    ensures r.Some? <==> Has(original, key) || Has(node, key)
    ensures Has(original, key) ==> r == Get(original, key)
    ensures !Has(original, key) ==> r == Get(node, key)
  {
    match Get(original, key)
    case Some(v) => Some(v)
    case None => Get(node, key)
  }

  /** The reference text of a node that has `$ref`. */
  function RefText(node: Json): string
    requires Has(node, "$ref")
  {
    AsText(Get(node, "$ref").value)
  }

  /**
   * The `$ref` chain from `node` reaches a node without `$ref` in at most
   * `depth` steps. Every step is loaded relative to the same `parent`, as the
   * source does. The source has no cycle check: a chain that never ends
   * recurses without bound and is outside this model.
   */
  predicate RefChainEnds(env: Env, parent: SchemaId, node: Json, depth: nat)
    decreases depth
  {
    Has(node, "$ref") ==> depth > 0 && RefChainEnds(env, parent, env.load(parent, RefText(node)).content, depth - 1)
  }

  /** One step along a chain: the node a `$ref` loads, or the node itself when it has none. */
  function Hop(env: Env, parent: SchemaId, node: Json): Json {
    if Has(node, "$ref") then env.load(parent, RefText(node)).content else node
  }

  /** The node reached from `node` after `k` steps along its chain. */
  function Hops(env: Env, parent: SchemaId, node: Json, k: nat): Json
    decreases k
  {
    if k == 0 then node else Hops(env, parent, Hop(env, parent, node), k - 1)
  }

  /**
   * `resolveRefs`: follows `$ref` until a node without one. The result is
   * the first node along the chain that has no `$ref`.
   */
  function ResolveRefs(env: Env, node: Json, parent: SchemaId, depth: nat): (r: Json)
    requires RefChainEnds(env, parent, node, depth)
    ensures !Has(r, "$ref")
    ensures !Has(node, "$ref") ==> r == node
    ensures exists k :: 0 <= k <= depth && r == Hops(env, parent, node, k)
                        && forall j :: 0 <= j < k ==> Has(Hops(env, parent, node, j), "$ref")
    decreases depth
  {
    if Has(node, "$ref") then
      var next := env.load(parent, RefText(node)).content;
      assert RefChainEnds(env, parent, next, depth - 1);
      var r := ResolveRefs(env, next, parent, depth - 1);
      var k :| 0 <= k <= depth - 1 && r == Hops(env, parent, next, k)
               && forall j :: 0 <= j < k ==> Has(Hops(env, parent, next, j), "$ref");
      assert r == Hops(env, parent, node, k + 1);
      assert forall j :: 1 <= j < k + 1 ==> Hops(env, parent, node, j) == Hops(env, parent, next, j - 1);
      r
    else
      assert node == Hops(env, parent, node, 0);
      node
  }

  /** A bound on a chain's length stays a bound when raised. */
  lemma {:induction false} RefChainEndsMonotone(env: Env, parent: SchemaId, node: Json, depth: nat, depth': nat)
    requires depth <= depth' && RefChainEnds(env, parent, node, depth)
    ensures RefChainEnds(env, parent, node, depth')
    decreases depth
  {
    if Has(node, "$ref") {
      RefChainEndsMonotone(env, parent, env.load(parent, RefText(node)).content, depth - 1, depth' - 1);
    }
  }

  /** The node a chain resolves to does not depend on the bound used to show that it ends. */
  lemma {:induction false} ResolveRefsDepthIrrelevant(env: Env, node: Json, parent: SchemaId, depth: nat, depth': nat)
    requires RefChainEnds(env, parent, node, depth) && RefChainEnds(env, parent, node, depth')
    ensures ResolveRefs(env, node, parent, depth) == ResolveRefs(env, node, parent, depth')
    decreases depth
  {
    if Has(node, "$ref") {
      ResolveRefsDepthIrrelevant(env, env.load(parent, RefText(node)).content, parent, depth - 1, depth' - 1);
    }
  }

  /** The elements of the declaring schema's `required` member; none when it is absent. */
  function RequiredArray(content: Json): seq<Json> {
    match Get(content, "required")
    case Some(a) => Elements(a)
    case None => []
  }

  /**
   * Whether a property is required: a `required` member on the property
   * (its own or the referenced node's) decides by its boolean value;
   * otherwise the property is required when its name is the text of an
   * element of the declaring schema's `required` array.
   */
  predicate Required(name: string, node: Json, original: Json, content: Json) {
    match OriginalOrRef(original, node, "required")
    case Some(flag) => AsBoolean(flag)
    case None => ElementNames(RequiredArray(content), name)
  }

  /** A `required` member on the property or its referenced node decides alone: the schema's array is not read. */
  lemma RequiredFlagWins(name: string, node: Json, original: Json, content: Json, content': Json)
    requires OriginalOrRef(original, node, "required").Some?
    ensures Required(name, node, original, content) == AsBoolean(OriginalOrRef(original, node, "required").value)
    ensures Required(name, node, original, content) == Required(name, node, original, content')
  {
  }

  /**
   * Without a `required` member, a property is required exactly when the
   * schema's `required` member is there and one of its elements has the
   * property's name as text.
   */
  lemma RequiredByArray(name: string, node: Json, original: Json, content: Json)
    requires OriginalOrRef(original, node, "required").None?
    ensures Required(name, node, original, content) <==>
      && Has(content, "required")
      && exists i :: 0 <= i < |Elements(Get(content, "required").value)| && AsText(Elements(Get(content, "required").value)[i]) == name
  {
  }

  /** Some element of `es` has `name` as its text. */
  predicate ElementNames(es: seq<Json>, name: string) {
    exists i :: 0 <= i < |es| && AsText(es[i]) == name
  }

  /** The search of the `required` array in `isRequired`: it stops at the first element naming `name`. */
  method FindName(elements: seq<Json>, name: string) returns (found: bool)
    ensures found == ElementNames(elements, name)
  {
    var i := 0;
    while i < |elements|
      invariant 0 <= i <= |elements|
      invariant forall k :: 0 <= k < i ==> AsText(elements[k]) != name
    {
      if name == AsText(elements[i]) {
        return true;
      }
      i := i + 1;
    }
    return false;
  }

  /** `isRequired`: the property's own `required` flag, else a search of the declaring schema's `required` array. */
  method IsRequired(nodeName: string, node: Json, original: Json, content: Json) returns (req: bool)
    ensures req == Required(nodeName, node, original, content)
    ensures OriginalOrRef(original, node, "required").Some? ==> req == AsBoolean(OriginalOrRef(original, node, "required").value)
    ensures OriginalOrRef(original, node, "required").None? && !Has(content, "required") ==> !req
  {
    var requiredNode := OriginalOrRef(original, node, "required");
    if requiredNode.Some? {
      return AsBoolean(requiredNode.value);
    }
    var requiredArray := Get(content, "required");
    if requiredArray.Some? {
      req := FindName(Elements(requiredArray.value), nodeName);
      return;
    }
    return false;
  }

  /** The getter's type: an optional primitive is presented boxed, anything else as resolved. */
  function PresentedType(t: JType, required: bool): (r: JType)
    ensures Unbox(r) == Unbox(t)
    ensures r.Primitive? ==> required
    ensures required || t.ClassType? ==> r == t
    ensures !required && t.Primitive? ==> r == Box(t)
  {
    if !required && IsPrimitive(t) then Box(t) else t
  }

  predicate LiteralPrim(p: Prim) {
    p in {BooleanP, IntP, LongP, FloatP, DoubleP}
  }

  /** The literal kind `JExpr.lit` is given for a getter of primitive type `p`. */
  predicate LiteralFits(lit: Literal, p: Prim) {
    match lit
    case BoolLit(_) => p == BooleanP
    case IntLit(_) => p == IntP
    case LongLit(_) => p == LongP
    case DoubleLit(_) => p == DoubleP || p == FloatP
    case StringLit(_) => false
  }

  /** The literal is the default node, converted the way its kind demands. */
  predicate ConvertedFrom(lit: Literal, d: Json) {
    match lit
    case BoolLit(b) => b == AsBoolean(d)
    case IntLit(src) => src == d
    case LongLit(src) => src == d
    case DoubleLit(src) => src == d
    case StringLit(text) => text == AsText(d)
  }

  function ArgOf(e: Expr): Literal {
    match e
    case Lit(lit) => lit
    case StaticCall(_, _, arg) => arg
  }

  /**
   * `getDefaultExpr`: the typed expression for the property's `default`
   * (the property node's own, else the referenced node's), or none.
   */
  function DefaultExpr(original: Json, node: Json, t: JType): (r: Option<Expr>)
    ensures r.None? <==> OriginalOrRef(original, node, "default").None?
    ensures r.Some? ==> ConvertedFrom(ArgOf(r.value), OriginalOrRef(original, node, "default").value)
    ensures r.Some? && Unbox(t).Primitive? && LiteralPrim(Unbox(t).prim) ==>
      r.value.Lit? && LiteralFits(r.value.lit, Unbox(t).prim)
    ensures r.Some? && !(Unbox(t).Primitive? && LiteralPrim(Unbox(t).prim)) ==>
      (r.value.Lit? <==> AcceptsString(t)) && (r.value.Lit? ==> r.value.lit.StringLit?)
    ensures r.Some? && r.value.StaticCall? ==>
      var d := OriginalOrRef(original, node, "default").value;
      && r.value.owner == Box(t)
      && (r.value.name == "fromString" <==> !IsNumber(d) && !IsDefinedEnum(t))
      && (r.value.name != "fromString" ==> r.value.name == "fromValue")
      && (r.value.arg.LongLit? <==> IsIntegralNumber(d))
      && (r.value.arg.DoubleLit? <==> IsNumber(d) && !IsIntegralNumber(d))
      && (r.value.arg.StringLit? <==> !IsNumber(d))
  {
    match OriginalOrRef(original, node, "default")
    case None => None
    case Some(d) =>
      var u := Unbox(t);
      if u == Primitive(BooleanP) then Some(Lit(BoolLit(AsBoolean(d))))
      else if u == Primitive(IntP) then Some(Lit(IntLit(d)))
      else if u == Primitive(LongP) then Some(Lit(LongLit(d)))
      else if u == Primitive(DoubleP) || u == Primitive(FloatP) then Some(Lit(DoubleLit(d)))
      else if AcceptsString(t) then Some(Lit(StringLit(AsText(d))))
      else if IsIntegralNumber(d) then Some(StaticCall(Box(t), "fromValue", LongLit(d)))
      else if IsNumber(d) then Some(StaticCall(Box(t), "fromValue", DoubleLit(d)))
      else if IsDefinedEnum(t) then Some(StaticCall(Box(t), "fromValue", StringLit(AsText(d))))
      else Some(StaticCall(Box(t), "fromString", StringLit(AsText(d))))
  }

  /** Boxing the type first (as an optional primitive is) does not change the default. */
  lemma DefaultIgnoresBoxing(original: Json, node: Json, t: JType)
    ensures DefaultExpr(original, node, Box(t)) == DefaultExpr(original, node, t)
  {
  }

  /** What the rule has worked out about a property before it adds the getter. */
  datatype Facts = Facts(node: Json, required: bool, presented: JType, default: Option<Expr>)

  /** Lines 21-29 of `apply`: the type, the resolved node, requiredness and the default. */
  function Analyze(env: Env, name: string, original: Json, schema: SchemaId, content: Json, depth: nat): (f: Facts)
    requires RefChainEnds(env, schema, original, depth)
    ensures !Has(f.node, "$ref")
    ensures f.required == Required(name, f.node, original, content)
    ensures Unbox(f.presented) == Unbox(env.schemaType(name, original, schema))
    ensures f.presented.Primitive? ==> f.required
    ensures f.default.None? <==> OriginalOrRef(original, f.node, "default").None?
    ensures f.node == ResolveRefs(env, original, schema, depth)
    ensures var t := env.schemaType(name, original, schema);
      && (!f.required && t.Primitive? ==> f.presented == Box(t))
      && (f.required || t.ClassType? ==> f.presented == t)
    ensures f.default == DefaultExpr(original, f.node, env.schemaType(name, original, schema))
  {
    var node := ResolveRefs(env, original, schema, depth);
    var required := Required(name, node, original, content);
    var t := env.schemaType(name, original, schema);
    var presented := PresentedType(t, required);
    DefaultIgnoresBoxing(original, node, t);
    Facts(node, required, presented, DefaultExpr(original, node, presented))
  }

  /**
   * The `@Nullable` test of `addGetter`: only an optional getter with no
   * default reads the resolved node's `type`, and faults when it is missing.
   */
  function NullableDecision(f: Facts): (r: Result<bool, Fault>)
    ensures r.Failure? <==> !f.required && f.default.None? && !Has(f.node, "type")
    ensures r.Failure? ==> r.error == MissingTypeKeyword
    ensures r == Success(true) <==>
      !f.required && f.default.None? && Has(f.node, "type") && AsText(Get(f.node, "type").value) != "array"
  {
    if f.required || f.default.Some? then Success(false)
    else match Get(f.node, "type")
      case None => Failure(MissingTypeKeyword)
      case Some(ty) => Success(AsText(ty) != "array")
  }

  /** The getter as `c.method(...)` adds it: abstract exactly when there is no default. */
  function DeclaredGetter(env: Env, name: string, f: Facts): Getter {
    Getter(if f.default.None? then PublicAbstract else PublicOnly, f.presented,
           env.getterName(name, f.presented, f.node), [], None)
  }

  /**
   * The getter once `apply` has finished with it: `@Nullable` when so
   * decided, then the annotator's getter hook, then, with a default,
   * `@Value.Default` and a body returning the default.
   */
  function CompletedGetter(env: Env, name: string, f: Facts, nullable: bool): Getter {
    var declared := DeclaredGetter(env, name, f).(annotations := if nullable then [Nullable] else []);
    var hooked := declared.(annotations := declared.annotations + [GetterHook(name)]);
    if f.default.Some? then hooked.(annotations := hooked.annotations + [ValueDefault], body := f.default)
    else hooked
  }

  /** The getter one application of the rule leaves on the class, and the fault it throws, if any. */
  datatype PropertyOutcome = PropertyOutcome(getter: Getter, fault: Option<Fault>)

  /** What `apply` does for one property, as a value. */
  function Compile(env: Env, name: string, original: Json, schema: SchemaId, content: Json, depth: nat): (o: PropertyOutcome)
    requires RefChainEnds(env, schema, original, depth)
    ensures var f := Analyze(env, name, original, schema, content, depth);
      && o.getter.returnType == f.presented
      && o.getter.name == env.getterName(name, f.presented, f.node)
      && o.getter.mods.isPublic
      && (o.getter.mods.isAbstract <==> f.default.None?)
      && (o.fault.Some? <==> NullableDecision(f).Failure?)
      && (o.fault.Some? ==> o.fault.value == MissingTypeKeyword && o.getter.annotations == [] && o.getter.body == None)
      && (o.fault.None? ==>
            && o.getter.body == f.default
            && (Nullable in o.getter.annotations <==> NullableDecision(f) == Success(true))
            && (ValueDefault in o.getter.annotations <==> f.default.Some?)
            && GetterHook(name) in o.getter.annotations
            && o.getter.annotations ==
                 (if NullableDecision(f) == Success(true) then [Nullable] else []) + [GetterHook(name)]
                 + (if f.default.Some? then [ValueDefault] else []))
    ensures !(Nullable in o.getter.annotations && ValueDefault in o.getter.annotations)
  {
    var f := Analyze(env, name, original, schema, content, depth);
    match NullableDecision(f)
    case Failure(e) => PropertyOutcome(DeclaredGetter(env, name, f), Some(e))
    case Success(nullable) => PropertyOutcome(CompletedGetter(env, name, f, nullable), None)
  }

  /** `addGetter`: adds the getter, then marks it `@Nullable` or faults on a missing `type`. */
  method AddGetter(env: Env, c: DefinedClass, t: JType, jsonPropertyName: string, node: Json,
                   isRequired: bool, defaultValue: Option<Expr>)
    returns (index: nat, fault: Option<Fault>)
    modifies c`methods
    ensures var f := Facts(node, isRequired, t, defaultValue);
      && index == |old(c.methods)|
      && fault == (if NullableDecision(f).Failure? then Some(MissingTypeKeyword) else None)
      && c.methods == old(c.methods) + [DeclaredGetter(env, jsonPropertyName, f).(
           annotations := if NullableDecision(f) == Success(true) then [Nullable] else [])]
  {
    ghost var f := Facts(node, isRequired, t, defaultValue);
    ghost var declared := DeclaredGetter(env, jsonPropertyName, f);
    var mods := if defaultValue.None? then PublicAbstract else PublicOnly;
    index := c.AddMethod(mods, t, env.getterName(jsonPropertyName, t, node));
    assert c.methods == old(c.methods) + [declared];
    if !isRequired && defaultValue.None? {
      var ty := Get(node, "type");
      if ty.None? {
        return index, Some(MissingTypeKeyword);
      }
      if AsText(ty.value) != "array" {
        assert c.methods[index].annotations + [Nullable] == [Nullable];
        c.AnnotateMethod(index, Nullable);
        assert c.methods == old(c.methods) + [declared.(annotations := [Nullable])];
      }
    }
    fault := None;
  }

  /** The rest of `apply` once the getter is declared: the getter hook, then the default. */
  method FinishGetter(env: Env, cls: DefinedClass, index: nat, name: string, f: Facts, nullable: bool)
    requires index + 1 == |cls.methods|
    requires cls.methods[index] == DeclaredGetter(env, name, f).(annotations := if nullable then [Nullable] else [])
    modifies cls`methods
    ensures cls.methods == old(cls.methods[..index]) + [CompletedGetter(env, name, f, nullable)]
  {
    ghost var g0 := cls.methods[index];
    cls.AnnotateMethod(index, GetterHook(name));
    ghost var g1 := g0.(annotations := g0.annotations + [GetterHook(name)]);
    assert cls.methods == old(cls.methods[..index]) + [g1];
    if f.default.Some? {
      cls.AnnotateMethod(index, ValueDefault);
      ghost var g2 := g1.(annotations := g1.annotations + [ValueDefault]);
      assert cls.methods == old(cls.methods[..index]) + [g2];
      cls.SetReturn(index, f.default.value);
      assert cls.methods == old(cls.methods[..index]) + [g2.(body := f.default)];
    }
  }

  /** `apply`: adds the property's getter to `cls` and returns `cls`. */
  method Apply(env: Env, nodeName: string, originalNode: Json, cls: DefinedClass, schema: Schema, depth: nat)
    returns (res: Result<DefinedClass, Fault>)
    requires RefChainEnds(env, schema.id, originalNode, depth)
    modifies cls`methods
    ensures var o := Compile(env, nodeName, originalNode, schema.id, schema.content, depth);
      && cls.methods == old(cls.methods) + [o.getter]
      && (o.fault.None? ==> res == Success(cls))
      && (o.fault.Some? ==> res == Failure(o.fault.value))
  {
    var propertyType := env.schemaType(nodeName, originalNode, schema.id);
    var node := ResolveRefs(env, originalNode, schema.id, depth);
    var isRequired := IsRequired(nodeName, node, originalNode, schema.content);
    if !isRequired && IsPrimitive(propertyType) {
      propertyType := Box(propertyType);
    }
    var defaultExpression := DefaultExpr(originalNode, node, propertyType);
    var f := Facts(node, isRequired, propertyType, defaultExpression);
    assert f == Analyze(env, nodeName, originalNode, schema.id, schema.content, depth);
    var index, fault := AddGetter(env, cls, propertyType, nodeName, node, isRequired, defaultExpression);
    if fault.Some? {
      return Failure(fault.value);
    }
    var nullable := NullableDecision(f).value;
    FinishGetter(env, cls, index, nodeName, f, nullable);
    assert cls.methods == old(cls.methods) + [CompletedGetter(env, nodeName, f, nullable)];
    return Success(cls);
  }
}
