/**
 * What every rule receives besides the node: the schema being compiled, the
 * generation settings, and the collaborators the rules call but do not
 * define (passed in, since their code is not part of this model).
 */
module RuleContext {
  import opened Wrappers
  import opened Json
  import opened JavaTypes

  /** A schema's `java.net.URI` id: `fragment` is `getFragment()`, `None` when the URI has no `#`. */
  datatype SchemaId = SchemaId(location: string, fragment: Option<string>)

  /** A schema found by the schema store: its id and its content. */
  datatype SchemaRef = SchemaRef(id: SchemaId, content: Json)

  /** A jsonschema2pojo `Schema`: an id, read-only content, and the Java type once one is assigned. */
  class Schema {
    const id: SchemaId
    const content: Json
    var javaType: Option<JType>

    constructor (id: SchemaId, content: Json)
      ensures this.id == id && this.content == content && javaType == None
    {
      this.id := id;
      this.content := content;
      javaType := None;
    }

    /** `setJavaTypeIfEmpty`: the first type assigned stays. */
    method SetJavaTypeIfEmpty(t: JType)
      modifies this`javaType
      ensures javaType == if old(javaType).None? then Some(t) else old(javaType)
    {
      if javaType.None? {
        javaType := Some(t);
      }
    }
  }

  /**
   * `GenerationConfig.getClassNamePrefix` and `getClassNameSuffix`; `None` is
   * Java's `null`. The flags the immutable rule factory fixes (primitives on,
   * JSR-305 on, builders, getters and setters off) change nothing these rules decide.
   */
  datatype Config = Config(classNamePrefix: Option<string>, classNameSuffix: Option<string>)

  /**
   * The collaborators:
   * - `load(parent, path)`: `SchemaStore.create(parent, path, delimiters)`;
   * - `schemaType(name, node, schema)`: `SchemaRule.apply`, the type a node compiles to;
   * - `fieldName`, `replaceIllegal`, `normalize`, `getterName`: `NameHelper`;
   * - `nextCandidate`: `MakeUniqueClassName.makeUnique`;
   * - `resolveType(pkg, name)`: `TypeUtil.resolveType`.
   */
  datatype Env = Env(
    config: Config,
    load: (SchemaId, string) -> SchemaRef,
    schemaType: (string, Json, SchemaId) -> JType,
    fieldName: (string, Json) -> string,
    replaceIllegal: string -> string,
    normalize: string -> string,
    getterName: (string, JType, Json) -> string,
    nextCandidate: string -> string,
    resolveType: (string, string) -> JType)

  /** The errors the rules throw. */
  datatype Fault =
    | MissingTypeKeyword          // NullPointerException: a nullable getter's node has no "type"
    | ExtendsJavaClassUnsupported // IllegalStateException: 'extendsJavaClass' not supported
    | CannotExtendClass           // RuntimeException: cannot extend a class, only an interface
    | JavaTypePrimitive(fqn: string)  // GenerationException: javaType cannot refer to a primitive type
    | JavaTypeGeneric(fqn: string)    // GenerationException: javaType does not support generic args

  /** `f` applied `n` times to `s`. */
  function Iterate(f: string -> string, s: string, n: nat): string
    decreases n
  {
    if n == 0 then s else f(Iterate(f, s, n - 1))
  }

  /**
   * The candidates `makeUnique` tries from any name never repeat: what the
   * increasing numeric suffix of `MakeUniqueClassName` provides.
   */
  ghost predicate NeverRevisits(f: string -> string) {
    forall s, i: nat, j: nat :: i < j ==> Iterate(f, s, i) != Iterate(f, s, j)
  }
}
