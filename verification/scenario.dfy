/** A worked transplant: donor `Helper` declares a field `counter:int`, a
 *  constructor, and a fused method `inc()I`; recipient `Target` already has
 *  `inc()I`. */
module Scenario {
  import opened Results
  import opened Nodes
  import opened Classifier
  import opened Fusion
  import opened Remapping
  import opened Operations
  import opened Properties

  const IntType: TypeDesc := Base('I')
  const IncDesc: MethodDesc := MethodDesc([], IntType)
  const VoidDesc: MethodDesc := MethodDesc([], Base('V'))

  /** `Target.inc()` as the recipient has it: push 0, return. */
  const TargetInc: MethodNode := MethodNode("inc", IncDesc, None, false, false, [OtherInsn, OtherInsn])

  const Target: ClassDef := ClassDef("Target", JavaLangObject, [], [], [TargetInc], None)

  /** The donor's constructor: only the call to the superclass constructor. */
  const HelperInit: MethodNode :=
    MethodNode(Init, VoidDesc, None, false, false, [OtherInsn, MethodInsn(JavaLangObject, Init, VoidDesc), OtherInsn])

  /** A fused `inc()` that calls itself once, which means calling the method it replaces. */
  const HelperIncCalling: MethodNode :=
    MethodNode("inc", IncDesc, None, false, true, [MethodInsn("Helper", "inc", IncDesc), OtherInsn])

  /** A fused `inc()` that never calls the method it replaces. */
  const HelperIncAlone: MethodNode :=
    MethodNode("inc", IncDesc, None, false, true, [OtherInsn, OtherInsn])

  function Helper(inc: MethodNode): ClassDef
  {
    ClassDef("Helper", JavaLangObject, [], [FieldNode("counter", IntType, false)], [HelperInit, inc], Some("Target"))
  }

  const Lookup: map<string, string> := map["Helper" := "Target"]

  /** The recipient `Target` ends with after a successful transplant. */
  function Merged(methods: seq<MethodNode>): ClassDef
  {
    Target.(fields := [FieldNode("counter", IntType, false)], methods := methods)
  }

  /** The fused `inc` after its self-call is redirected to `inc$original`. */
  const MergedInc: MethodNode :=
    HelperIncCalling.(insns := [MethodInsn("Target", "inc$original", IncDesc), OtherInsn])

  /** Interfaces and fields of the example: nothing to add on interfaces,
   *  `counter` is appended. */
  lemma ExampleFields(inc: MethodNode)
    requires inc.name == "inc"
    ensures InterfacesAfter(Helper(inc), []) == []
    ensures var r := FieldTransplants(Helper(inc), [], Lookup);
            r.Ok? && FieldsOf(r.value) == [FieldNode("counter", IntType, false)]
  {
    var donor := Helper(inc);
    assert GraftableFields(donor) == [FieldNode("counter", IntType, false)];
    CtorStoresNothing(inc);
    FieldChecksAccept(donor, [], Lookup);
  }

  /** Remapping `Helper` to `Target` turns the donor's self-call into a call on `Target`. */
  lemma RemapCalling()
    ensures RemapMethod(Lookup, HelperIncCalling)
         == HelperIncCalling.(insns := [MethodInsn("Target", "inc", IncDesc), OtherInsn])
  {
    assert MapMethodDesc(Lookup, IncDesc) == IncDesc;
    var r := RemapMethod(Lookup, HelperIncCalling);
    assert r.insns[0] == MethodInsn("Target", "inc", IncDesc);
  }

  /** A donor method that never names `Helper` is left as it is by the remap. */
  lemma RemapAlone()
    ensures RemapMethod(Lookup, HelperIncAlone) == HelperIncAlone
  {
    assert MapMethodDesc(Lookup, IncDesc) == IncDesc;
  }

  /** The fused `inc` that calls itself: the recipient's `inc` is renamed
   *  `inc$original` and kept, and the new `inc`, now calling it, comes after. */
  lemma CallingStep()
    ensures FuseStep([TargetInc], MethodTransplant("Helper", HelperIncCalling, Lookup))
         == Step(Ok(()), [TargetInc.(name := "inc$original"), MergedInc])
  {
    RemapCalling();
    var t := SubstituteTransplants(MethodTransplant("Helper", HelperIncCalling, Lookup));
    var selfCall := MethodInsn("Target", "inc", IncDesc);
    assert t.node.insns == [selfCall, OtherInsn];
    assert FindSignature([TargetInc], "inc", IncDesc) == Some(0);
    assert "inc" + OriginalSuffix == "inc$original";
    assert Occurrences(t.node.insns, selfCall) == 1 by {
      assert Occurrences([selfCall], selfCall) == 1 by {
        assert [selfCall][..0] == [];
      }
      assert t.node.insns[..1] == [selfCall];
    }
    var r := Redirected(t.node.insns, "Target", "inc", IncDesc, "inc$original");
    assert r[0] == MergedInc.insns[0] && r[1] == MergedInc.insns[1];
    assert r == MergedInc.insns;
    assert UpdateAndVerify([TargetInc], t) == Step(Ok(t.(node := MergedInc)), [TargetInc.(name := "inc$original")]);
  }

  /** The fused `inc` that does not call itself: the recipient's `inc`,
   *  renamed, is dropped, and only the new `inc` remains. */
  lemma AloneStep()
    ensures FuseStep([TargetInc], MethodTransplant("Helper", HelperIncAlone, Lookup))
         == Step(Ok(()), [HelperIncAlone])
  {
    RemapAlone();
    var t := SubstituteTransplants(MethodTransplant("Helper", HelperIncAlone, Lookup));
    var selfCall := MethodInsn("Target", "inc", IncDesc);
    assert t.node == HelperIncAlone;
    assert FindSignature([TargetInc], "inc", IncDesc) == Some(0);
    assert "inc" + OriginalSuffix == "inc$original";
    NoOccurrences(HelperIncAlone.insns, selfCall);
    var r := Redirected(HelperIncAlone.insns, "Target", "inc", IncDesc, "inc$original");
    assert r[0] == HelperIncAlone.insns[0] && r[1] == HelperIncAlone.insns[1];
    assert r == HelperIncAlone.insns;
    assert UpdateAndVerify([TargetInc], t) == Step(Ok(t), []);
  }

  /** Only the fused `inc` of the donor moves; its constructor stays. */
  lemma OnlyIncMoves(inc: MethodNode)
    requires inc.name == "inc" && !inc.isMock
    ensures GraftableMethods(Helper(inc)) == [inc]
  {
    var ms := Helper(inc).methods;
    var p := (m: MethodNode) => !m.isMock && !CtorOrStaticInit(m);
    assert p(inc) by {
      assert inc.name != Init && inc.name != ClInit;
    }
    assert ms[1..] == [inc] && [inc][1..] == [];
    assert Filter(ms, p) == Filter([inc], p) == [inc];
  }

  /** Up to the verifier's verdict, a transplant of `Helper` into `Target`
   *  is its method stage on `Target`'s methods. */
  lemma TransplantedIsMethodStage(inc: MethodNode, verify: Verifier)
    requires inc.name == "inc" && !inc.isMock
    requires MethodStage([TargetInc], [inc], "Helper", Lookup).outcome.Ok?
    ensures var s := MethodStage([TargetInc], [inc], "Helper", Lookup);
            Transplanted(Helper(inc), Target, Lookup, verify)
              == Outcome(verify(Merged(s.methods)), Merged(s.methods))
  {
    ExampleFields(inc);
    OnlyIncMoves(inc);
    var ts := FieldTransplants(Helper(inc), [], Lookup).value;
    assert [] + FieldsOf(ts) == [FieldNode("counter", IntType, false)];
  }

  /** A method stage with one candidate that succeeds is that candidate's step. */
  lemma SingleStage(methods: seq<MethodNode>, c: MethodNode)
    requires FuseStep(methods, MethodTransplant("Helper", c, Lookup)).outcome.Ok?
    ensures MethodStage(methods, [c], "Helper", Lookup) == FuseStep(methods, MethodTransplant("Helper", c, Lookup))
  {
    assert [c][1..] == [];
  }

  /** With a self-call, `Target` ends with the field, the old body kept as
   *  `inc$original`, and the new `inc` calling it. */
  lemma FusedWithSelfCall(verify: Verifier)
    requires verify(Merged([TargetInc.(name := "inc$original"), MergedInc])) == Ok(())
    ensures Transplanted(Helper(HelperIncCalling), Target, Lookup, verify)
         == Outcome(Ok(()), Merged([TargetInc.(name := "inc$original"), MergedInc]))
  {
    CallingStep();
    SingleStage([TargetInc], HelperIncCalling);
    TransplantedIsMethodStage(HelperIncCalling, verify);
  }

  /** Without a self-call the old `inc` is dropped: `Target` ends with the
   *  field and the new `inc` only. */
  lemma FusedWithoutSelfCall(verify: Verifier)
    requires verify(Merged([HelperIncAlone])) == Ok(())
    ensures Transplanted(Helper(HelperIncAlone), Target, Lookup, verify)
         == Outcome(Ok(()), Merged([HelperIncAlone]))
  {
    AloneStep();
    SingleStage([TargetInc], HelperIncAlone);
    TransplantedIsMethodStage(HelperIncAlone, verify);
  }

  /** The donor's constructor stores to no field, so `counter` is not
   *  rejected as initialised. */
  lemma CtorStoresNothing(inc: MethodNode)
    requires inc.name == "inc"
    ensures !InitializedInCtor(Helper(inc), "counter")
  {
    forall i | 0 <= i < |HelperInit.insns| ensures !StoresTo(HelperInit.insns[i], "counter") {}
    assert !MethodStoresTo(HelperInit, "counter");
    assert !CtorOrStaticInit(inc) by {
      assert inc.name != Init && inc.name != ClInit;
    }
  }
}
