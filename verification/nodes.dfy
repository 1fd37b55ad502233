/** The part of a class file's tree that the transplant engine reads and
 *  rewrites. Class and interface names are internal names in the sense of
 *  section 4.2.1 of the Java Virtual Machine Specification, SE 8 (JVMS), such as
 *  "java/lang/Object". Descriptors (JVMS 4.3) are kept structured, so
 *  equal descriptors are equal values and no descriptor text is parsed. */
module Nodes {
  import opened Results

  /** Every donor must extend the root of the class hierarchy. */
  const JavaLangObject: string := "java/lang/Object"

  /** The instance and class initialisation methods (JVMS 2.9). */
  const Init: string := "<init>"
  const ClInit: string := "<clinit>"

  /** Appended to a recipient method's name when a fused method takes its place. */
  const OriginalSuffix: string := "$original"

  /** Opcodes of the four field instructions (JVMS chapter 6). */
  const GETSTATIC: int := 178
  const PUTSTATIC: int := 179
  const GETFIELD: int := 180
  const PUTFIELD: int := 181

  /** A field descriptor: a base type (B, C, D, F, I, J, S, Z, or V as a
   *  return type), a class named by its internal name, or an array. */
  datatype TypeDesc =
    | Base(code: char)
    | ObjectType(internalName: string)
    | ArrayType(component: TypeDesc)

  /** A method descriptor: parameter types and return type. */
  datatype MethodDesc = MethodDesc(params: seq<TypeDesc>, ret: TypeDesc)

  /** A generic signature, kept as literal text interleaved with the class
   *  names it mentions (the only part a type remapping changes). */
  datatype SigPart = SigText(text: string) | SigClass(internalName: string)

  type Signature = seq<SigPart>

  /** A bytecode instruction: method invocations and field accesses carry
   *  their operands, type instructions (NEW, CHECKCAST, ...) a class name;
   *  every other instruction is opaque. */
  datatype Insn =
    | MethodInsn(owner: string, name: string, desc: MethodDesc)
    | FieldInsn(opcode: int, owner: string, name: string, fieldDesc: TypeDesc)
    | TypeInsn(opcode: int, operand: string)
    | OtherInsn

  /** A field; `isMock` stands for a `Graft.Mock` annotation on it. */
  datatype FieldNode = FieldNode(name: string, desc: TypeDesc, isMock: bool)

  /** A method; `isMock` and `isFuse` stand for the `Graft.Mock` and
   *  `Graft.Fuse` annotations. Its identity is its name and descriptor. */
  datatype MethodNode = MethodNode(
    name: string,
    desc: MethodDesc,
    signature: Option<Signature>,
    isMock: bool,
    isFuse: bool,
    insns: seq<Insn>)

  /** A class; `recipient` is the type named by its `Graft.Recipient`
   *  annotation, when it carries one. */
  datatype ClassDef = ClassDef(
    name: string,
    superName: string,
    interfaces: seq<string>,
    fields: seq<FieldNode>,
    methods: seq<MethodNode>,
    recipient: Option<string>)

  /** The outcomes the engine reports. `External` is a message produced by a
   *  collaborator outside the engine: the structural verifier or a loader. */
  datatype Msg =
    | TransplantMustNotExtendClass(donor: string)
    | InterfaceAlreadyExists(donor: string, iface: string)
    | FieldAlreadyExists(donor: string, field: string)
    | FieldDefaultValueNotSupported(donor: string, field: string)
    | MethodAlreadyExists(donor: string, methodName: string)
    | WrongFuseSignature(donor: string, methodName: string)
    | MissingGraftTargetAnnotation(donor: string)
    | External(detail: string)

  /** A field on its way from a donor to a recipient. */
  datatype FieldTransplant = FieldTransplant(donor: string, node: FieldNode)

  /** A method on its way from a donor to a recipient, with the type
   *  remapping (internal name to internal name) it is rewritten under. */
  datatype MethodTransplant = MethodTransplant(donor: string, node: MethodNode, lookup: map<string, string>)

  /** A method has the given name and descriptor. */
  predicate SignatureEquals(m: MethodNode, name: string, desc: MethodDesc)
  {
    m.name == name && m.desc == desc
  }
}
