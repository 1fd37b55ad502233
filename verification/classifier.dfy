/** Which donor members may move, and which donor fields are rejected
 *  because the donor's constructor or static initialiser stores to them. */
module Classifier {
  import opened Results
  import opened Nodes

  /** The method is a constructor or the static initialiser. Both carry
   *  the special names of JVMS 2.9, which begin with `<` and which no
   *  ordinary method name can, so no ordinary method is ever excluded. */
  predicate CtorOrStaticInit(m: MethodNode): (b: bool)
    ensures b ==> |m.name| > 0 && m.name[0] == '<'
  {
    m.name == ClInit || m.name == Init
  }

  /** All methods except mocked ones, constructors and the static
   *  initialiser, in declaration order. */
  function GraftableMethods(c: ClassDef): (r: seq<MethodNode>)
    ensures forall m :: m in r <==> m in c.methods && !m.isMock && !CtorOrStaticInit(m)
    ensures forall m :: multiset(r)[m] == if !m.isMock && !CtorOrStaticInit(m) then multiset(c.methods)[m] else 0
    ensures SubsequenceOf(r, c.methods)
  {
    Filter(c.methods, (m: MethodNode) => !m.isMock && !CtorOrStaticInit(m))
  }

  /** All fields except mocked ones, in declaration order. */
  function GraftableFields(c: ClassDef): (r: seq<FieldNode>)
    ensures forall f :: f in r <==> f in c.fields && !f.isMock
    ensures forall f :: multiset(r)[f] == if !f.isMock then multiset(c.fields)[f] else 0
    ensures SubsequenceOf(r, c.fields)
  {
    Filter(c.fields, (f: FieldNode) => !f.isMock)
  }

  /** The field instructions of `m` whose opcode is one of `opcodes`, in
   *  order and with repetitions. */
  function FieldInsnNodes(m: MethodNode, opcodes: set<int>): (r: seq<Insn>)
    ensures forall insn :: insn in r <==> insn in m.insns && insn.FieldInsn? && insn.opcode in opcodes
    ensures forall insn :: multiset(r)[insn]
                        == if insn.FieldInsn? && insn.opcode in opcodes then multiset(m.insns)[insn] else 0
    ensures SubsequenceOf(r, m.insns)
  {
    Filter(m.insns, (insn: Insn) => insn.FieldInsn? && insn.opcode in opcodes)
  }

  /** The instruction stores to a field (instance or static) named `name`;
   *  the owner class is not consulted. */
  predicate StoresTo(insn: Insn, name: string)
  {
    insn.FieldInsn? && insn.opcode in {PUTFIELD, PUTSTATIC} && insn.name == name
  }

  /** Some instruction of `m` stores to a field named `name`. */
  predicate MethodStoresTo(m: MethodNode, name: string)
  {
    exists i :: 0 <= i < |m.insns| && StoresTo(m.insns[i], name)
  }

  /** The donor gives the field named `name` a value in a constructor or in
   *  its static initialiser. */
  predicate InitializedInCtor(donor: ClassDef, name: string)
  {
    exists m :: m in donor.methods && CtorOrStaticInit(m) && MethodStoresTo(m, name)
  }

  /** Names of the fields the PUTFIELD and PUTSTATIC instructions of `m` store to, in order. */
  function StoredNames(m: MethodNode): seq<string>
  {
    var stores := FieldInsnNodes(m, {PUTFIELD, PUTSTATIC});
    seq(|stores|, i requires 0 <= i < |stores| => stores[i].name)
  }

  /** A name is among a method's stored names exactly when the method stores to it. */
  lemma StoredNamesSpec(m: MethodNode, name: string)
    ensures name in StoredNames(m) <==> MethodStoresTo(m, name)
  {
    if name in StoredNames(m) {
      StoredNameIsStored(m, name);
    }
    if MethodStoresTo(m, name) {
      StoreIsStoredName(m, name);
    }
  }

  lemma StoredNameIsStored(m: MethodNode, name: string)
    requires name in StoredNames(m)
    ensures MethodStoresTo(m, name)
  {
    var stores := FieldInsnNodes(m, {PUTFIELD, PUTSTATIC});
    var i :| 0 <= i < |stores| && stores[i].name == name;
    assert stores[i] in stores;
    var j :| 0 <= j < |m.insns| && m.insns[j] == stores[i];
    assert StoresTo(m.insns[j], name);
  }

  lemma StoreIsStoredName(m: MethodNode, name: string)
    requires MethodStoresTo(m, name)
    ensures name in StoredNames(m)
  {
    var stores := FieldInsnNodes(m, {PUTFIELD, PUTSTATIC});
    var j :| 0 <= j < |m.insns| && StoresTo(m.insns[j], name);
    assert m.insns[j] in stores;
    var i :| 0 <= i < |stores| && stores[i] == m.insns[j];
    assert StoredNames(m)[i] == name;
  }

  /** Names of the fields stored to by the given methods, in order. */
  function StoredFieldNames(ctors: seq<MethodNode>): seq<string>
    decreases |ctors|
  {
    if ctors == [] then [] else StoredNames(ctors[0]) + StoredFieldNames(ctors[1..])
  }

  /** Names of the fields the donor's constructors and static initialiser
   *  store to: exactly the names `InitializedInCtor` holds for. */
  function InitializedByCtor(donor: ClassDef): (r: seq<string>)
    ensures forall name :: name in r <==> InitializedInCtor(donor, name)
  {
    var ctors := Filter(donor.methods, CtorOrStaticInit);
    forall name ensures name in StoredFieldNames(ctors) <==> InitializedInCtor(donor, name) {
      StoredFieldNamesSpec(ctors, name);
    }
    StoredFieldNames(ctors)
  }

  lemma {:induction false} StoredFieldNamesSpec(ctors: seq<MethodNode>, name: string)
    ensures name in StoredFieldNames(ctors) <==> exists m :: m in ctors && MethodStoresTo(m, name)
    decreases |ctors|
  {
    if ctors != [] {
      StoredFieldNamesSpec(ctors[1..], name);
      StoredNamesSpec(ctors[0], name);
      forall m | m in ctors ensures m == ctors[0] || m in ctors[1..] {}
    }
  }

  /** The check a donor field must pass: rejected with
   *  `FieldDefaultValueNotSupported` exactly when the donor's constructor or
   *  static initialiser stores to a field of that name. */
  function VerifyFieldsNotInitialized(donor: ClassDef): (check: FieldNode -> Result<FieldNode, Msg>)
    ensures forall f :: check(f).Err? <==> InitializedInCtor(donor, f.name)
    ensures forall f :: check(f).Ok? ==> check(f).value == f
    ensures forall f :: check(f).Err? ==> check(f).error == FieldDefaultValueNotSupported(donor.name, f.name)
  {
    var initialized := InitializedByCtor(donor);
    (f: FieldNode) =>
      if f.name !in initialized then Ok(f)
      else Err(FieldDefaultValueNotSupported(donor.name, f.name))
  }

  /** A recipient already has a field of this name (descriptors are not compared). */
  predicate NamePresent(fields: seq<FieldNode>, name: string)
  {
    exists g :: g in fields && g.name == name
  }

  /** The check a field transplant must pass against the recipient's fields. */
  function VerifyFieldNotPresent(fields: seq<FieldNode>, t: FieldTransplant): (r: Result<FieldTransplant, Msg>)
    ensures r.Err? <==> NamePresent(fields, t.node.name)
    ensures r.Ok? ==> r.value == t
    ensures r.Err? ==> r.error == FieldAlreadyExists(t.donor, t.node.name)
  {
    if NamePresent(fields, t.node.name) then Err(FieldAlreadyExists(t.donor, t.node.name))
    else Ok(t)
  }
}
