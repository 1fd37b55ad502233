/** The type remapper: rewrites every class name a method refers to, in its
 *  descriptor, its generic signature and its instructions, through a map
 *  from internal name to internal name. Names absent from the map pass
 *  through unchanged, and method and field names are never renamed. */
module Remapping {
  import opened Results
  import opened Nodes

  function MapType(lookup: map<string, string>, name: string): string
  {
    if name in lookup then lookup[name] else name
  }

  /** The map sends every name it holds to itself. */
  predicate IsIdentity(lookup: map<string, string>)
  {
    forall n :: n in lookup ==> lookup[n] == n
  }

  function MapTypeDesc(lookup: map<string, string>, t: TypeDesc): TypeDesc
  {
    match t
    case Base(_) => t
    case ObjectType(n) => ObjectType(MapType(lookup, n))
    case ArrayType(c) => ArrayType(MapTypeDesc(lookup, c))
  }

  /** Every parameter type and the return type are remapped; the arity is kept. */
  function MapMethodDesc(lookup: map<string, string>, d: MethodDesc): (r: MethodDesc)
    ensures |r.params| == |d.params|
    ensures forall i :: 0 <= i < |d.params| ==> r.params[i] == MapTypeDesc(lookup, d.params[i])
    ensures r.ret == MapTypeDesc(lookup, d.ret)
  {
    MethodDesc(seq(|d.params|, i requires 0 <= i < |d.params| => MapTypeDesc(lookup, d.params[i])),
               MapTypeDesc(lookup, d.ret))
  }

  function MapSignature(lookup: map<string, string>, s: Option<Signature>): Option<Signature>
  {
    match s
    case None => None
    case Some(parts) =>
      Some(seq(|parts|, i requires 0 <= i < |parts| =>
        match parts[i]
        case SigText(_) => parts[i]
        case SigClass(n) => SigClass(MapType(lookup, n))))
  }

  function MapInsn(lookup: map<string, string>, insn: Insn): Insn
  {
    match insn
    case MethodInsn(owner, name, desc) => MethodInsn(MapType(lookup, owner), name, MapMethodDesc(lookup, desc))
    case FieldInsn(op, owner, name, desc) => FieldInsn(op, MapType(lookup, owner), name, MapTypeDesc(lookup, desc))
    case TypeInsn(op, operand) => TypeInsn(op, MapType(lookup, operand))
    case OtherInsn => OtherInsn
  }

  /** The method with its descriptor, signature and every instruction
   *  remapped: its name, annotations and length are kept, and each
   *  instruction is the remapped instruction at the same position. */
  function RemapMethod(lookup: map<string, string>, m: MethodNode): (r: MethodNode)
    ensures r.name == m.name && r.isMock == m.isMock && r.isFuse == m.isFuse
    ensures r.desc == MapMethodDesc(lookup, m.desc)
    ensures r.signature == MapSignature(lookup, m.signature)
    ensures |r.insns| == |m.insns|
    ensures forall i :: 0 <= i < |m.insns| ==> r.insns[i] == MapInsn(lookup, m.insns[i])
  {
    m.(desc := MapMethodDesc(lookup, m.desc),
       signature := MapSignature(lookup, m.signature),
       insns := seq(|m.insns|, i requires 0 <= i < |m.insns| => MapInsn(lookup, m.insns[i])))
  }

  /** A call the donor makes on its own type lands, after remapping, on the
   *  type the donor's name maps to, with name kept and descriptor remapped. */
  lemma RemapRetargetsOwnCalls(lookup: map<string, string>, donor: string, m: MethodNode, i: nat)
    requires donor in lookup
    requires i < |m.insns| && m.insns[i].MethodInsn? && m.insns[i].owner == donor
    ensures RemapMethod(lookup, m).insns[i]
         == MethodInsn(lookup[donor], m.insns[i].name, MapMethodDesc(lookup, m.insns[i].desc))
  {
  }

  /** The lookup leaves `name` as it is: absent, or mapped to itself. */
  predicate Fixes(lookup: map<string, string>, name: string)
  {
    name !in lookup || lookup[name] == name
  }

  /** Every class name the type descriptor mentions is left as it is. */
  predicate TypeNamesFixed(lookup: map<string, string>, t: TypeDesc)
  {
    match t
    case Base(_) => true
    case ObjectType(n) => Fixes(lookup, n)
    case ArrayType(c) => TypeNamesFixed(lookup, c)
  }

  predicate MethodDescNamesFixed(lookup: map<string, string>, d: MethodDesc)
  {
    (forall i :: 0 <= i < |d.params| ==> TypeNamesFixed(lookup, d.params[i])) && TypeNamesFixed(lookup, d.ret)
  }

  predicate InsnNamesFixed(lookup: map<string, string>, insn: Insn)
  {
    match insn
    case MethodInsn(owner, _, desc) => Fixes(lookup, owner) && MethodDescNamesFixed(lookup, desc)
    case FieldInsn(_, owner, _, desc) => Fixes(lookup, owner) && TypeNamesFixed(lookup, desc)
    case TypeInsn(_, operand) => Fixes(lookup, operand)
    case OtherInsn => true
  }

  predicate SignatureNamesFixed(lookup: map<string, string>, s: Option<Signature>)
  {
    s.Some? ==> forall i :: 0 <= i < |s.value| && s.value[i].SigClass? ==> Fixes(lookup, s.value[i].internalName)
  }

  /** Every class name the method mentions, in its descriptor, its generic
   *  signature or its instructions, is left as it is by the lookup. */
  predicate MethodNamesFixed(lookup: map<string, string>, m: MethodNode)
  {
    && MethodDescNamesFixed(lookup, m.desc)
    && SignatureNamesFixed(lookup, m.signature)
    && forall i :: 0 <= i < |m.insns| ==> InsnNamesFixed(lookup, m.insns[i])
  }

  /** Names the lookup leaves as they are pass through a type descriptor unchanged. */
  lemma {:induction false} PassThroughTypeDesc(lookup: map<string, string>, t: TypeDesc)
    requires TypeNamesFixed(lookup, t)
    ensures MapTypeDesc(lookup, t) == t
  {
    match t
    case Base(_) =>
    case ObjectType(n) =>
    case ArrayType(c) => PassThroughTypeDesc(lookup, c);
  }

  lemma PassThroughMethodDesc(lookup: map<string, string>, d: MethodDesc)
    requires MethodDescNamesFixed(lookup, d)
    ensures MapMethodDesc(lookup, d) == d
  {
    PassThroughTypeDesc(lookup, d.ret);
    forall i | 0 <= i < |d.params|
      ensures MapMethodDesc(lookup, d).params[i] == d.params[i]
    {
      PassThroughTypeDesc(lookup, d.params[i]);
    }
  }

  lemma PassThroughInsn(lookup: map<string, string>, insn: Insn)
    requires InsnNamesFixed(lookup, insn)
    ensures MapInsn(lookup, insn) == insn
  {
    match insn
    case MethodInsn(_, _, desc) => PassThroughMethodDesc(lookup, desc);
    case FieldInsn(_, _, _, desc) => PassThroughTypeDesc(lookup, desc);
    case TypeInsn(_, _) =>
    case OtherInsn =>
  }

  /** A method that mentions only names the lookup leaves as they are is
   *  unchanged by the remap: descriptor, signature and every instruction. */
  lemma PassThroughRemap(lookup: map<string, string>, m: MethodNode)
    requires MethodNamesFixed(lookup, m)
    ensures RemapMethod(lookup, m) == m
  {
    PassThroughMethodDesc(lookup, m.desc);
    forall i | 0 <= i < |m.insns|
      ensures RemapMethod(lookup, m).insns[i] == m.insns[i]
    {
      PassThroughInsn(lookup, m.insns[i]);
    }
    match m.signature
    case None =>
    case Some(parts) =>
      assert MapSignature(lookup, m.signature).value == parts;
  }

  /** An identity lookup leaves every name a type descriptor mentions as it is. */
  lemma {:induction false} IdentityFixesType(lookup: map<string, string>, t: TypeDesc)
    requires IsIdentity(lookup)
    ensures TypeNamesFixed(lookup, t)
  {
    match t
    case Base(_) =>
    case ObjectType(n) =>
    case ArrayType(c) => IdentityFixesType(lookup, c);
  }

  /** Remapping through an identity map gives back the same method. */
  lemma IdentityRemap(lookup: map<string, string>, m: MethodNode)
    requires IsIdentity(lookup)
    ensures RemapMethod(lookup, m) == m
  {
    forall t: TypeDesc ensures TypeNamesFixed(lookup, t) {
      IdentityFixesType(lookup, t);
    }
    PassThroughRemap(lookup, m);
  }
}
