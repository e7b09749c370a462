/**
 * The parts of the codemodel the rules build: classes a package defines,
 * the getters on them, their annotations, and the registry of defined
 * classes keyed by package and simple name (`JPackage._class`, `remove`).
 */
module CodeModel {
  import opened Wrappers
  import opened Json
  import opened JavaTypes

  datatype Mods = Mods(isPublic: bool, isAbstract: bool)

  const PublicAbstract := Mods(true, true)
  const PublicOnly := Mods(true, false)

  /**
   * The annotations the rules place. The annotator's hooks are recorded as
   * the call itself (what the configured annotator writes for it is not modelled).
   */
  datatype Annotation =
    | Nullable                          // javax.annotation.Nullable
    | ValueDefault                      // org.immutables.value.Value.Default
    | ValueImmutable                    // org.immutables.value.Value.Immutable
    | ValueModifiable                   // org.immutables.value.Value.Modifiable
    | DeserializeAs(target: string)     // JsonDeserialize(as = target)
    | GetterHook(property: string)      // Annotator.propertyGetter
    | InclusionHook                     // Annotator.propertyInclusion
    | PropertyOrderHook(names: seq<string>)  // Annotator.propertyOrder

  /**
   * A literal expression. Numeric literals carry the JSON node whose
   * `asInt`/`asLong`/`asDouble` the source passes to `JExpr.lit`.
   */
  datatype Literal =
    | BoolLit(b: bool)
    | IntLit(source: Json)
    | LongLit(source: Json)
    | DoubleLit(source: Json)
    | StringLit(text: string)

  /** `JExpr.lit(...)` or `owner.staticInvoke(name).arg(...)`. */
  datatype Expr =
    | Lit(lit: Literal)
    | StaticCall(owner: JType, name: string, arg: Literal)

  /** A `JMethod` with no parameters; `body` is the expression its body returns, if any. */
  datatype Getter = Getter(mods: Mods, returnType: JType, name: string, annotations: seq<Annotation>, body: Option<Expr>)

  /** Where a class lives: its package (`""` is the root package) and simple name. */
  datatype ClassKey = ClassKey(pkg: string, name: string)

  /** `JDefinedClass.fullName()` of a top-level class. */
  function QualifiedName(key: ClassKey): string {
    if key.pkg == "" then key.name else key.pkg + "." + key.name
  }

  /** A class this code model will generate (`JDefinedClass`). */
  class DefinedClass {
    const key: ClassKey
    const kind: ClassKind
    var mods: Mods
    var annotations: seq<Annotation>
    var interfaces: seq<JType>
    var methods: seq<Getter>

    constructor (key: ClassKey, mods: Mods, kind: ClassKind)
      ensures this.key == key && this.mods == mods && this.kind == kind
      ensures annotations == [] && interfaces == [] && methods == []
    {
      this.key := key;
      this.kind := kind;
      this.mods := mods;
      annotations := [];
      interfaces := [];
      methods := [];
    }

    /** The class as a type. A generated class is not one reflection finds, so it is not final. */
    function AsType(): (t: JType)
      ensures t.ClassType? && t.isDefined && !t.isFinal && t.kind == kind
      ensures t.fullName == QualifiedName(key)
    {
      ClassType(QualifiedName(key), kind, false, true, false)
    }

    /** `annotate(a)`. */
    method Annotate(a: Annotation)
      modifies this`annotations
      ensures annotations == old(annotations) + [a]
    {
      annotations := annotations + [a];
    }

    /** `_implements(t)`. */
    method Implement(t: JType)
      modifies this`interfaces
      ensures interfaces == old(interfaces) + [t]
    {
      interfaces := interfaces + [t];
    }

    /** `method(mods, type, name)`: adds a getter with no annotations and no body; returns its index. */
    method AddMethod(mods: Mods, returnType: JType, name: string) returns (index: nat)
      modifies this`methods
      ensures index == |old(methods)|
      ensures methods == old(methods) + [Getter(mods, returnType, name, [], None)]
    {
      index := |methods|;
      methods := methods + [Getter(mods, returnType, name, [], None)];
    }

    /** `getter.annotate(a)` on the getter at `index`. */
    method AnnotateMethod(index: nat, a: Annotation)
      requires index < |methods|
      modifies this`methods
      ensures methods == old(methods)[index := old(methods)[index].(annotations := old(methods)[index].annotations + [a])]
    {
      methods := methods[index := methods[index].(annotations := methods[index].annotations + [a])];
    }

    /** `getter.body()._return(e)` on the getter at `index`. */
    method SetReturn(index: nat, e: Expr)
      requires index < |methods|
      modifies this`methods
      ensures methods == old(methods)[index := old(methods)[index].(body := Some(e))]
    {
      methods := methods[index := methods[index].(body := Some(e))];
    }
  }

  /** What `JPackage._class` gives: the new class, or the one it refused to replace. */
  datatype Definition = Created(created: DefinedClass) | AlreadyExists(existing: DefinedClass)

  /** The classes of every package of one `JCodeModel`. */
  class ClassRegistry {
    var classes: map<ClassKey, DefinedClass>

    constructor ()
      ensures classes == map[]
    {
      classes := map[];
    }

    /**
     * `JPackage._class(mods, name, kind)`: a fresh class registered under `key`,
     * or, when the key is taken, the class already there (the source's
     * `JClassAlreadyExistsException`) with nothing changed.
     */
    method DefineClass(key: ClassKey, mods: Mods, kind: ClassKind) returns (d: Definition)
      modifies this
      ensures key in old(classes) ==> d == AlreadyExists(old(classes)[key]) && classes == old(classes)
      ensures key !in old(classes) ==>
        && d.Created? && fresh(d.created)
        && d.created.key == key && d.created.mods == mods && d.created.kind == kind
        && d.created.annotations == [] && d.created.interfaces == [] && d.created.methods == []
        && classes == old(classes)[key := d.created]
    {
      if key in classes {
        d := AlreadyExists(classes[key]);
      } else {
        var c := new DefinedClass(key, mods, kind);
        classes := classes[key := c];
        d := Created(c);
      }
    }

    /** `JPackage.remove(c)` for the class registered under `key`. */
    method Remove(key: ClassKey)
      modifies this
      ensures classes == old(classes) - {key}
    {
      classes := classes - {key};
    }
  }
}
