/**
 * PropertiesRule: applies the property rule to every member of a schema's
 * `properties` object, in member order, then lets the annotator record the
 * property order on the class.
 */
module PropertiesRule {
  import opened Wrappers
  import opened Json
  import opened CodeModel
  import opened RuleContext
  import PropertyRule

  /** Every property's `$ref` chain ends within `depth` steps. */
  predicate PropertiesEnd(env: Env, schema: SchemaId, node: Json, depth: nat) {
    forall name :: name in FieldNames(node) ==> PropertyRule.RefChainEnds(env, schema, Get(node, name).value, depth)
  }

  /** The getters a run over some properties adds, and the fault that stopped it, if any. */
  datatype Batch = Batch(getters: seq<Getter>, fault: Option<Fault>)

  /** Each property of `node`, in member order, compiled on its own. */
  function Outcomes(env: Env, node: Json, schema: SchemaId, content: Json, depth: nat): (outs: seq<PropertyRule.PropertyOutcome>)
    requires PropertiesEnd(env, schema, node, depth)
    ensures |outs| == |FieldNames(node)|
    ensures forall i :: 0 <= i < |outs| ==>
      outs[i] == PropertyRule.Compile(env, FieldNames(node)[i], Get(node, FieldNames(node)[i]).value, schema, content, depth)
  {
    var names := FieldNames(node);
    seq(|names|, i requires 0 <= i < |names| =>
      PropertyRule.Compile(env, names[i], Get(node, names[i]).value, schema, content, depth))
  }

  /**
   * The properties compiled one after another. A fault ends the run: the
   * getter of the failing property stays, as the source's exception leaves
   * it on the class, and no later property is compiled.
   */
  function Run(outs: seq<PropertyRule.PropertyOutcome>): (b: Batch)
    ensures |b.getters| <= |outs|
    ensures b.fault.None? ==> |b.getters| == |outs|
    ensures b.fault.Some? ==> 0 < |b.getters| && b.fault == outs[|b.getters| - 1].fault
    decreases |outs|
  {
    if outs == [] then Batch([], None)
    else
      var prev := Run(outs[..|outs| - 1]);
      if prev.fault.Some? then prev
      else
        var o := outs[|outs| - 1];
        Batch(prev.getters + [o.getter], o.fault)
  }

  /**
   * What a run adds: the getters of the properties up to and including the
   * first that faults, in order, and that property's fault; every getter
   * and no fault when none faults.
   */
  lemma {:induction false} RunMeaning(outs: seq<PropertyRule.PropertyOutcome>)
    ensures var b := Run(outs);
      && (forall i :: 0 <= i < |b.getters| ==> b.getters[i] == outs[i].getter)
      && (b.fault.None? <==> |b.getters| == |outs| && forall i :: 0 <= i < |outs| ==> outs[i].fault.None?)
      && (b.fault.Some? ==>
            && |b.getters| > 0
            && b.fault == outs[|b.getters| - 1].fault
            && forall i :: 0 <= i < |b.getters| - 1 ==> outs[i].fault.None?)
    decreases |outs|
  {
    if outs != [] {
      var front := outs[..|outs| - 1];
      RunMeaning(front);
      assert forall i :: 0 <= i < |front| ==> front[i] == outs[i];
    }
  }

  // Facts about sequences, stated apart from runs so that proving them does not unfold `Run`.

  lemma SplitAt<T>(s: seq<T>, k: nat)
    requires k <= |s|
    ensures s[..k] + s[k..] == s
  {
  }

  lemma PrefixOfPrefix<T>(s: seq<T>, k: nat, m: nat)
    requires k <= m <= |s|
    ensures s[..m][..k] == s[..k]
  {
  }

  lemma TakeAll<T>(s: seq<T>)
    ensures s[..|s|] == s
  {
  }

  lemma AppendAssoc<T>(s: seq<T>, t: seq<T>, u: seq<T>)
    ensures s + t + u == s + (t + u)
  {
  }

  lemma AppendEmpty<T>(s: seq<T>)
    ensures s + [] == s
  {
  }

  lemma DropLastOfAppend<T>(s: seq<T>, t: seq<T>)
    requires t != []
    ensures (s + t)[..|s + t| - 1] == s + t[..|t| - 1]
  {
  }

  /** A run that failed stays as it was when more properties follow. */
  lemma {:induction false} RunStopsAtFault(outs: seq<PropertyRule.PropertyOutcome>, more: seq<PropertyRule.PropertyOutcome>)
    requires Run(outs).fault.Some?
    ensures Run(outs + more) == Run(outs)
    decreases |more|
  {
    if more != [] {
      DropLastOfAppend(outs, more);
      RunStopsAtFault(outs, more[..|more| - 1]);
    } else {
      AppendEmpty(outs);
    }
  }

  /** One more property after a run without a fault adds its getter, and its fault if it has one. */
  lemma RunStep(outs: seq<PropertyRule.PropertyOutcome>, i: nat)
    requires i < |outs| && Run(outs[..i]).fault.None?
    ensures Run(outs[..i + 1]) == Batch(Run(outs[..i]).getters + [outs[i].getter], outs[i].fault)
  {
    PrefixOfPrefix(outs, i, i + 1);
  }

  /** A run that fails at the `i`-th property is the run over all of them. */
  lemma RunFailsAt(outs: seq<PropertyRule.PropertyOutcome>, i: nat)
    requires i < |outs| && Run(outs[..i + 1]).fault.Some?
    ensures Run(outs) == Run(outs[..i + 1])
  {
    SplitAt(outs, i + 1);
    RunStopsAtFault(outs[..i + 1], outs[i + 1..]);
  }

  /** The property rule applied to the `i`-th property, in the terms of its outcome. */
  method ApplyAt(env: Env, node: Json, i: nat, cls: DefinedClass, schema: Schema, depth: nat,
                 ghost outs: seq<PropertyRule.PropertyOutcome>)
    returns (fault: Option<Fault>)
    requires PropertiesEnd(env, schema.id, node, depth)
    requires outs == Outcomes(env, node, schema.id, schema.content, depth) && i < |outs|
    modifies cls`methods
    ensures cls.methods == old(cls.methods) + [outs[i].getter]
    ensures fault == outs[i].fault
  {
    var property := FieldNames(node)[i];
    var r := PropertyRule.Apply(env, property, Get(node, property).value, cls, schema, depth);
    fault := if r.Failure? then Some(r.error) else None;
  }

  /** One turn of the loop in `apply`: the run so far grows by the `i`-th property. */
  method Step(env: Env, node: Json, i: nat, cls: DefinedClass, schema: Schema, depth: nat,
              ghost outs: seq<PropertyRule.PropertyOutcome>, ghost base: seq<Getter>)
    returns (fault: Option<Fault>)
    requires PropertiesEnd(env, schema.id, node, depth)
    requires outs == Outcomes(env, node, schema.id, schema.content, depth) && i < |outs|
    requires Run(outs[..i]).fault.None? && cls.methods == base + Run(outs[..i]).getters
    modifies cls`methods
    ensures cls.methods == base + Run(outs[..i + 1]).getters
    ensures fault == Run(outs[..i + 1]).fault
    ensures fault.Some? ==> Run(outs) == Run(outs[..i + 1])
  {
    fault := ApplyAt(env, node, i, cls, schema, depth, outs);
    RunStep(outs, i);
    AppendAssoc(base, Run(outs[..i]).getters, [outs[i].getter]);
    if fault.Some? {
      RunFailsAt(outs, i);
    }
  }

  /** `apply`: one getter per property, in member order, then the property-order hook. */
  method Apply(env: Env, nodeName: string, node: Option<Json>, cls: DefinedClass, schema: Schema, depth: nat)
    returns (res: Result<DefinedClass, Fault>)
    requires node.Some? ==> PropertiesEnd(env, schema.id, node.value, depth)
    modifies cls`methods, cls`annotations
    ensures node.None? ==> res == Success(cls) && cls.methods == old(cls.methods) && cls.annotations == old(cls.annotations)
    ensures node.Some? ==>
      var b := Run(Outcomes(env, node.value, schema.id, schema.content, depth));
      && cls.methods == old(cls.methods) + b.getters
      && (b.fault.None? ==>
            res == Success(cls) && cls.annotations == old(cls.annotations) + [PropertyOrderHook(FieldNames(node.value))])
      && (b.fault.Some? ==> res == Failure(b.fault.value) && cls.annotations == old(cls.annotations))
  {
    if node.None? {
      return Success(cls);
    }
    var n := node.value;
    var names := FieldNames(n);
    ghost var outs := Outcomes(env, n, schema.id, schema.content, depth);
    var i := 0;
    while i < |names|
      invariant 0 <= i <= |names|
      invariant Run(outs[..i]).fault.None?
      invariant cls.methods == old(cls.methods) + Run(outs[..i]).getters
      invariant cls.annotations == old(cls.annotations)
    {
      var fault := Step(env, n, i, cls, schema, depth, outs, old(cls.methods));
      if fault.Some? {
        return Failure(fault.value);
      }
      i := i + 1;
    }
    TakeAll(outs);
    cls.Annotate(PropertyOrderHook(names));
    return Success(cls);
  }
}
