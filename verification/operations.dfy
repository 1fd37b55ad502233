/** The transplant pipeline: merges a donor class into a recipient class in
 *  five steps (pre-flight check, interfaces, fields, methods, structural
 *  verification), updating the recipient in place. */
module Operations {
  import opened Results
  import opened Nodes
  import opened Remapping
  import opened Classifier
  import opened Fusion

  /** The external structural verifier, consulted once all members moved. */
  type Verifier = ClassDef -> Result<(), Msg>

  /** A recipient class whose member lists are updated in place. */
  class ClassNode {
    var name: string
    var superName: string
    var interfaces: seq<string>
    var fields: seq<FieldNode>
    var methods: seq<MethodNode>
    var recipient: Option<string>

    /** The class as a value. */
    function Value(): ClassDef
      reads this
    {
      ClassDef(name, superName, interfaces, fields, methods, recipient)
    }

    constructor (c: ClassDef)
      ensures Value() == c
    {
      name, superName, interfaces := c.name, c.superName, c.interfaces;
      fields, methods, recipient := c.fields, c.methods, c.recipient;
    }

    /** Appends the transplanted field; nothing else changes. */
    method GraftField(t: FieldTransplant)
      modifies this
      ensures Value() == old(Value()).(fields := old(fields) + [t.node])
    {
      fields := fields + [t.node];
    }

    /** Applies a field transplant, which always succeeds. */
    method FuseField(t: FieldTransplant) returns (r: Result<(), Msg>)
      modifies this
      ensures r.Ok?
      ensures Value() == old(Value()).(fields := old(fields) + [t.node])
    {
      GraftField(t);
      r := Ok(());
    }

    /** Appends the transplanted method; nothing else changes. */
    method GraftMethod(t: MethodTransplant)
      modifies this
      ensures Value() == old(Value()).(methods := old(methods) + [t.node])
    {
      methods := methods + [t.node];
    }

    /** Looks up the recipient method the (remapped) candidate would
     *  replace, renames it, and applies the four-way decision, rewriting
     *  the candidate's self-calls and dropping an uncalled original when it
     *  fuses. Only `methods` changes. */
    method UpdateAndVerifyMethod(t: MethodTransplant) returns (r: Result<MethodTransplant, Msg>)
      requires t.donor in t.lookup
      modifies this
      ensures r == UpdateAndVerify(old(methods), t).outcome
      ensures Value() == old(Value()).(methods := UpdateAndVerify(old(methods), t).methods)
    {
      var original := FindSignature(methods, t.node.name, t.node.desc);
      if original.Some? {
        var k := original.value;
        methods := methods[k := methods[k].(name := methods[k].name + OriginalSuffix)];
      }
      var doFuse := t.node.isFuse;
      var canFuse := original.Some?;
      var self := t.lookup[t.donor];

      if !doFuse && canFuse {
        return Err(MethodAlreadyExists(t.donor, t.node.name));
      } else if doFuse && !canFuse {
        return Err(WrongFuseSignature(t.donor, t.node.name));
      } else if !doFuse && !canFuse {
        return Ok(t);
      }
      var k := original.value;
      var insns, redirected := RedirectSelfCalls(t.node.insns, self, t.node.name, t.node.desc, methods[k].name);
      if redirected == 0 {
        methods := methods[..k] + methods[k + 1..];
      }
      r := Ok(t.(node := t.node.(insns := insns)));
    }

    /** Applies a method transplant to a copy of its method: remaps it,
     *  decides, and appends it on success. Only `methods` changes. */
    method FuseMethod(t: MethodTransplant) returns (r: Result<(), Msg>)
      requires t.donor in t.lookup
      modifies this
      ensures r == FuseStep(old(methods), t).outcome
      ensures Value() == old(Value()).(methods := FuseStep(old(methods), t).methods)
    {
      // The copy taken before remapping is implicit: members are values.
      var substituted := SubstituteTransplants(t);
      var updated := UpdateAndVerifyMethod(substituted);
      if updated.Err? {
        return Err(updated.error);
      }
      GraftMethod(updated.value);
      r := Ok(());
    }

    /** Applies every field transplant in order (none of them can fail). */
    method FuseFields(ts: seq<FieldTransplant>)
      modifies this
      ensures Value() == old(Value()).(fields := old(fields) + FieldsOf(ts))
    {
      var i := 0;
      while i < |ts|
        invariant 0 <= i <= |ts|
        invariant Value() == old(Value()).(fields := old(fields) + FieldsOf(ts)[..i])
      {
        var _ := FuseField(ts[i]);
        assert FieldsOf(ts)[..i + 1] == FieldsOf(ts)[..i] + [ts[i].node];
        i := i + 1;
      }
      assert FieldsOf(ts)[..i] == FieldsOf(ts);
    }

    /** Applies the donor's method candidates in order and stops at the
     *  first one that fails; the earlier ones stay applied. */
    method FuseMethods(candidates: seq<MethodNode>, donor: string, lookup: map<string, string>)
      returns (r: Result<(), Msg>)
      requires donor in lookup
      modifies this
      ensures r == MethodStage(old(methods), candidates, donor, lookup).outcome
      ensures Value() == old(Value()).(methods := MethodStage(old(methods), candidates, donor, lookup).methods)
    {
      var j := 0;
      while j < |candidates|
        invariant 0 <= j <= |candidates|
        invariant Value() == old(Value()).(methods := methods)
        invariant MethodStage(old(methods), candidates, donor, lookup)
               == MethodStage(methods, candidates[j..], donor, lookup)
      {
        var fused := FuseMethod(MethodTransplant(donor, candidates[j], lookup));
        if fused.Err? {
          return Err(fused.error);
        }
        assert candidates[j..][1..] == candidates[j + 1..];
        j := j + 1;
      }
      r := Ok(());
    }
  }

  /** An interface the donor declares is accepted when the recipient does not
   *  implement it yet. */
  function CheckRecipientInterface(recipientInterfaces: seq<string>, donor: string, iface: string): (r: Result<string, Msg>)
    ensures r.Ok? <==> iface !in recipientInterfaces
    ensures r.Ok? ==> r.value == iface
    ensures r.Err? ==> r.error == InterfaceAlreadyExists(donor, iface)
  {
    if iface !in recipientInterfaces then Ok(iface)
    else Err(InterfaceAlreadyExists(donor, iface))
  }

  /** The recipient's interfaces after the interface step: every donor
   *  interface is checked; if all pass they are appended, and on any
   *  conflict the step recovers and adds none. */
  function InterfacesAfter(donor: ClassDef, recipientInterfaces: seq<string>): (r: seq<string>)
    ensures r == recipientInterfaces || r == recipientInterfaces + donor.interfaces
  {
    var f := (i: string) => CheckRecipientInterface(recipientInterfaces, donor.name, i);
    match MapAll(donor.interfaces, f)
    case Ok(accepted) =>
      assert accepted == donor.interfaces by {
        forall k | 0 <= k < |accepted| ensures accepted[k] == donor.interfaces[k] {
          assert f(donor.interfaces[k]) == Ok(accepted[k]);
        }
      }
      recipientInterfaces + accepted
    case Err(_) => recipientInterfaces
  }

  /** Wraps each field into a transplant from `donor`. */
  function Envelopes(donor: string, fs: seq<FieldNode>): seq<FieldTransplant>
  {
    seq(|fs|, i requires 0 <= i < |fs| => FieldTransplant(donor, fs[i]))
  }

  /** The fields the transplants carry, in order. */
  function FieldsOf(ts: seq<FieldTransplant>): seq<FieldNode>
  {
    seq(|ts|, i requires 0 <= i < |ts| => ts[i].node)
  }

  /** The field checks: first every graftable field against the donor's
   *  constructors and static initialiser, then every one against the
   *  recipient's field names; the survivors are stamped with the donor's
   *  remapped name. */
  function FieldTransplants(donor: ClassDef, recipientFields: seq<FieldNode>, lookup: map<string, string>)
    : (r: Result<seq<FieldTransplant>, Msg>)
    ensures r.Ok? ==> |r.value| == |GraftableFields(donor)|
    ensures r.Ok? ==> forall i :: 0 <= i < |r.value| ==> r.value[i].donor == MapType(lookup, donor.name)
    ensures r.Err? ==> (r.error.FieldDefaultValueNotSupported? || r.error.FieldAlreadyExists?)
                       && r.error.donor == donor.name
  {
    var c := GraftableFields(donor);
    var check := VerifyFieldsNotInitialized(donor);
    match MapAll(c, check)
    case Err(e) =>
      assert check(c[FirstFailure(c, check)]).Err?;
      Err(e)
    case Ok(fs) =>
      var envs := Envelopes(donor.name, fs);
      var present := (t: FieldTransplant) => VerifyFieldNotPresent(recipientFields, t);
      match MapAll(envs, present)
      case Err(e) =>
        var k := FirstFailure(envs, present);
        assert envs[k].donor == donor.name;
        Err(e)
      case Ok(ts) =>
        var stamp := MapType(lookup, donor.name);
        Ok(seq(|ts|, i requires 0 <= i < |ts| => ts[i].(donor := stamp)))
  }

  /** What a transplant returns and the recipient it leaves behind. */
  datatype Outcome = Outcome(result: Result<(), Msg>, recipient: ClassDef)

  /** The whole pipeline on values. */
  function Transplanted(donor: ClassDef, recipient: ClassDef, lookup: map<string, string>, verify: Verifier)
    : (o: Outcome)
    requires donor.name in lookup
    ensures o.recipient.name == recipient.name && o.recipient.superName == recipient.superName
    ensures o.recipient.recipient == recipient.recipient
    ensures o.recipient.interfaces == recipient.interfaces || o.recipient.interfaces == recipient.interfaces + donor.interfaces
    ensures |recipient.methods| <= |o.recipient.methods| <= |recipient.methods| + |GraftableMethods(donor)|
  {
    if donor.superName != JavaLangObject then
      Outcome(Err(TransplantMustNotExtendClass(donor.name)), recipient)
    else
      var withInterfaces := recipient.(interfaces := InterfacesAfter(donor, recipient.interfaces));
      match FieldTransplants(donor, withInterfaces.fields, lookup)
      case Err(e) => Outcome(Err(e), withInterfaces)
      case Ok(ts) =>
        var withFields := withInterfaces.(fields := withInterfaces.fields + FieldsOf(ts));
        var s := MethodStage(withFields.methods, GraftableMethods(donor), donor.name, lookup);
        var done := withFields.(methods := s.methods);
        Outcome(if s.outcome.Err? then Err(s.outcome.error) else verify(done), done)
  }

  /** Transplants `donor` into `recipient` in place. On success the result
   *  is the recipient itself; on failure the recipient keeps whatever the
   *  steps before the failure did to it. */
  method Transplant(donor: ClassDef, recipient: ClassNode, lookup: map<string, string>, verify: Verifier)
    returns (r: Result<ClassNode, Msg>)
    requires donor.name in lookup
    modifies recipient
    ensures var o := Transplanted(donor, old(recipient.Value()), lookup, verify);
            && recipient.Value() == o.recipient
            && (r.Ok? <==> o.result.Ok?)
            && (r.Ok? ==> r.value == recipient)
            && (r.Err? ==> r.error == o.result.error)
  {
    if donor.superName != JavaLangObject {
      return Err(TransplantMustNotExtendClass(donor.name));
    }

    var existing := recipient.interfaces;
    var accepted := MapAll(donor.interfaces, (i: string) => CheckRecipientInterface(existing, donor.name, i));
    if accepted.Ok? {
      recipient.interfaces := recipient.interfaces + accepted.value;
    }

    var checked := FieldTransplants(donor, recipient.fields, lookup);
    if checked.Err? {
      return Err(checked.error);
    }
    recipient.FuseFields(checked.value);

    var fused := recipient.FuseMethods(GraftableMethods(donor), donor.name, lookup);
    if fused.Err? {
      return Err(fused.error);
    }

    var verified := verify(recipient.Value());
    if verified.Err? {
      return Err(verified.error);
    }
    r := Ok(recipient);
  }

  /** The type the donor's `Graft.Recipient` annotation names. */
  function ReadRecipientType(donor: ClassDef): (r: Result<string, Msg>)
    ensures r.Ok? <==> donor.recipient.Some?
    ensures r.Ok? ==> r.value == donor.recipient.value
    ensures r.Err? ==> r.error == MissingGraftTargetAnnotation(donor.name)
  {
    match donor.recipient
    case Some(target) => Ok(target)
    case None => Err(MissingGraftTargetAnnotation(donor.name))
  }

  /** A class is a transplant when it names its recipient. */
  function IsTransplant(c: ClassDef): (b: bool)
    ensures b <==> c.recipient.Some?
  {
    ReadRecipientType(c).Ok?
  }

  /** Transplants `donor` into the class its `Graft.Recipient` annotation
   *  names, as produced by `load`. */
  method TransplantFrom(donor: ClassDef, load: string -> Result<ClassDef, Msg>, lookup: map<string, string>,
                        verify: Verifier)
    returns (r: Result<ClassNode, Msg>)
    requires donor.name in lookup
    ensures donor.recipient.None? ==> r == Err(MissingGraftTargetAnnotation(donor.name))
    ensures donor.recipient.Some? && load(donor.recipient.value).Err? ==> r == Err(load(donor.recipient.value).error)
    ensures donor.recipient.Some? && load(donor.recipient.value).Ok? ==>
              var o := Transplanted(donor, load(donor.recipient.value).value, lookup, verify);
              && (r.Ok? <==> o.result.Ok?)
              && (r.Ok? ==> fresh(r.value) && r.value.Value() == o.recipient)
              && (r.Err? ==> r.error == o.result.error)
  {
    var target := ReadRecipientType(donor);
    if target.Err? {
      return Err(target.error);
    }
    var loaded := load(target.value);
    if loaded.Err? {
      return Err(loaded.error);
    }
    var recipient := new ClassNode(loaded.value);
    r := Transplant(donor, recipient, lookup, verify);
  }
}
