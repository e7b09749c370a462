/**
 * The codemodel types a rule can produce or inspect (`JType`): the primitive
 * types, and class types with the attributes the rules test (interface or
 * enum kind, `final` as reflection reports it, whether the class is one this
 * code model defines, and whether a `String` is assignable to it).
 */
module JavaTypes {
  import opened Wrappers

  datatype Prim = BooleanP | ByteP | CharP | ShortP | IntP | LongP | FloatP | DoubleP | VoidP

  datatype ClassKind = ConcreteClass | Interface | Enum | AnnotationType

  datatype JType =
    | Primitive(prim: Prim)
    | ClassType(fullName: string, kind: ClassKind, isFinal: bool, isDefined: bool, acceptsString: bool)

  /** The wrapper class of each primitive type. */
  function WrapperName(p: Prim): string {
    match p
    case BooleanP => "java.lang.Boolean"
    case ByteP => "java.lang.Byte"
    case CharP => "java.lang.Character"
    case ShortP => "java.lang.Short"
    case IntP => "java.lang.Integer"
    case LongP => "java.lang.Long"
    case FloatP => "java.lang.Float"
    case DoubleP => "java.lang.Double"
    case VoidP => "java.lang.Void"
  }

  /** The primitive type a wrapper class name stands for, if it is one. */
  function WrappedPrim(name: string): (r: Option<Prim>)
    ensures r.Some? ==> WrapperName(r.value) == name
    ensures forall p :: WrapperName(p) == name ==> r == Some(p)
  {
    if name == "java.lang.Boolean" then Some(BooleanP)
    else if name == "java.lang.Byte" then Some(ByteP)
    else if name == "java.lang.Character" then Some(CharP)
    else if name == "java.lang.Short" then Some(ShortP)
    else if name == "java.lang.Integer" then Some(IntP)
    else if name == "java.lang.Long" then Some(LongP)
    else if name == "java.lang.Float" then Some(FloatP)
    else if name == "java.lang.Double" then Some(DoubleP)
    else if name == "java.lang.Void" then Some(VoidP)
    else None
  }

  /** `JType.boxify()`: a primitive becomes its (final, library) wrapper class; a class type is itself. */
  function Box(t: JType): (r: JType)
    ensures r.ClassType?
    ensures t.ClassType? ==> r == t
    ensures t.Primitive? ==> r.kind == ConcreteClass && r.isFinal && !r.isDefined && !r.acceptsString
    ensures Unbox(r) == Unbox(t)
  {
    match t
    case Primitive(p) => ClassType(WrapperName(p), ConcreteClass, true, false, false)
    case ClassType(_, _, _, _, _) => t
  }

  /** `JType.unboxify()`: a referenced wrapper class becomes its primitive; anything else is itself. */
  function Unbox(t: JType): (r: JType)
    ensures t.Primitive? ==> r == t
    ensures r.Primitive? && t.ClassType? ==> !t.isDefined && t.fullName == WrapperName(r.prim)
    ensures r.ClassType? ==> r == t
    ensures t.ClassType? && !t.isDefined && WrappedPrim(t.fullName).Some? ==> r == Primitive(WrappedPrim(t.fullName).value)
  {
    match t
    case Primitive(_) => t
    case ClassType(name, _, _, defined, _) =>
      if defined then t
      else match WrappedPrim(name)
        case Some(p) => Primitive(p)
        case None => t
  }

  /** The Java keyword of each primitive type. */
  function PrimKeyword(p: Prim): string {
    match p
    case BooleanP => "boolean"
    case ByteP => "byte"
    case CharP => "char"
    case ShortP => "short"
    case IntP => "int"
    case LongP => "long"
    case FloatP => "float"
    case DoubleP => "double"
    case VoidP => "void"
  }

  /**
   * `PrimitiveTypes.isPrimitive` together with `primitiveType`: the
   * primitive whose keyword `name` is, other than `void`.
   */
  function PrimitiveNamed(name: string): (r: Option<Prim>)
    ensures r.Some? ==> r.value != VoidP && PrimKeyword(r.value) == name
    ensures forall p :: p != VoidP && PrimKeyword(p) == name ==> r == Some(p)
  {
    if name == "boolean" then Some(BooleanP)
    else if name == "byte" then Some(ByteP)
    else if name == "char" then Some(CharP)
    else if name == "short" then Some(ShortP)
    else if name == "int" then Some(IntP)
    else if name == "long" then Some(LongP)
    else if name == "float" then Some(FloatP)
    else if name == "double" then Some(DoubleP)
    else None
  }

  predicate IsPrimitive(t: JType) {
    t.Primitive?
  }

  /** `JClass.isInterface()` of a class type. */
  predicate IsInterface(t: JType) {
    t.ClassType? && t.kind == Interface
  }

  /** `Modifier.isFinal` of the class reflection finds under the type's name; false when none is found. */
  predicate IsFinal(t: JType) {
    t.ClassType? && t.isFinal
  }

  /** `type instanceof JDefinedClass && getClassType() == ClassType.ENUM`. */
  predicate IsDefinedEnum(t: JType) {
    t.ClassType? && t.isDefined && t.kind == Enum
  }

  /** `isAssignableFrom(String)` of the type's boxed form. */
  predicate AcceptsString(t: JType) {
    Box(t).acceptsString
  }
}
