/** The method fusion protocol: how one donor method, once its types are
 *  remapped, is checked against the recipient's methods and either added,
 *  rejected, or fused with the recipient method it replaces. */
module Fusion {
  import opened Results
  import opened Nodes
  import opened Remapping

  /** The result of one step of the method stage and the recipient's methods after it. */
  datatype Step<T> = Step(outcome: Result<T, Msg>, methods: seq<MethodNode>)

  /** Index of the first method with the given name and descriptor, if any. */
  function FindSignature(methods: seq<MethodNode>, name: string, desc: MethodDesc): (k: Option<nat>)
    ensures k.Some? ==> k.value < |methods| && SignatureEquals(methods[k.value], name, desc)
    ensures k.Some? ==> forall j :: 0 <= j < k.value ==> !SignatureEquals(methods[j], name, desc)
    ensures k.None? <==> forall j :: 0 <= j < |methods| ==> !SignatureEquals(methods[j], name, desc)
    decreases |methods|
  {
    if methods == [] then None
    else if SignatureEquals(methods[0], name, desc) then Some(0)
    else match FindSignature(methods[1..], name, desc)
      case None => None
      case Some(k) => Some(k + 1)
  }

  /** The recipient method a fused method replaces, under its new name. */
  function Renamed(m: MethodNode): MethodNode
  {
    m.(name := m.name + OriginalSuffix)
  }

  /** How many instructions of `insns` equal `x`. */
  function Occurrences(insns: seq<Insn>, x: Insn): nat
    decreases |insns|
  {
    if insns == [] then 0
    else Occurrences(insns[..|insns| - 1], x) + (if insns[|insns| - 1] == x then 1 else 0)
  }

  /** No occurrence is counted exactly when the instruction does not occur. */
  lemma {:induction false} NoOccurrences(insns: seq<Insn>, x: Insn)
    ensures Occurrences(insns, x) == 0 <==> x !in insns
    decreases |insns|
  {
    if insns != [] {
      var init := insns[..|insns| - 1];
      NoOccurrences(init, x);
      assert insns == init + [insns[|insns| - 1]];
    }
  }

  /** `insn` pointed at `target` when it is a call, on `self`, of the method
   *  named `name` with descriptor `desc`; any other instruction unchanged. */
  function Retarget(insn: Insn, self: string, name: string, desc: MethodDesc, target: string): Insn
  {
    if insn == MethodInsn(self, name, desc) then MethodInsn(self, target, desc) else insn
  }

  /** The instructions with every such self-call pointed at `target`
   *  instead, all other instructions untouched. */
  function Redirected(insns: seq<Insn>, self: string, name: string, desc: MethodDesc, target: string): (r: seq<Insn>)
    ensures |r| == |insns|
    ensures forall i :: 0 <= i < |insns| ==> r[i] == Retarget(insns[i], self, name, desc, target)
  {
    seq(|insns|, i requires 0 <= i < |insns| => Retarget(insns[i], self, name, desc, target))
  }

  /** Walks the instructions once, pointing every call of `name`/`desc` on
   *  `self` at `target`, and counts the instructions it rewrote. */
  method RedirectSelfCalls(insns: seq<Insn>, self: string, name: string, desc: MethodDesc, target: string)
    returns (out: seq<Insn>, count: nat)
    ensures out == Redirected(insns, self, name, desc, target)
    ensures count == Occurrences(insns, MethodInsn(self, name, desc))
  {
    out, count := [], 0;
    var i := 0;
    while i < |insns|
      invariant 0 <= i <= |insns|
      invariant out == Redirected(insns[..i], self, name, desc, target)
      invariant count == Occurrences(insns[..i], MethodInsn(self, name, desc))
    {
      var insn := insns[i];
      if insn.MethodInsn? && insn.owner == self && insn.name == name && insn.desc == desc {
        out := out + [MethodInsn(self, target, desc)];
        count := count + 1;
      } else {
        out := out + [insn];
      }
      assert insns[..i + 1][..i] == insns[..i];
      i := i + 1;
    }
    assert insns[..i] == insns;
  }

  /** After redirection no self-call remains, and every call that was
   *  redirected now reaches `target`. */
  lemma {:induction false} RedirectedCounts(insns: seq<Insn>, self: string, name: string, desc: MethodDesc, target: string)
    requires target != name
    ensures Occurrences(Redirected(insns, self, name, desc, target), MethodInsn(self, name, desc)) == 0
    ensures Occurrences(Redirected(insns, self, name, desc, target), MethodInsn(self, target, desc))
         == Occurrences(insns, MethodInsn(self, target, desc)) + Occurrences(insns, MethodInsn(self, name, desc))
    decreases |insns|
  {
    if insns != [] {
      var init := insns[..|insns| - 1];
      RedirectedCounts(init, self, name, desc, target);
      var r := Redirected(insns, self, name, desc, target);
      assert r[..|r| - 1] == Redirected(init, self, name, desc, target);
    }
  }

  /** Type-remaps a transplant's method (descriptor, signature, instructions). */
  function SubstituteTransplants(t: MethodTransplant): (r: MethodTransplant)
    ensures r.donor == t.donor && r.lookup == t.lookup
    ensures r.node == RemapMethod(t.lookup, t.node)
  {
    t.(node := RemapMethod(t.lookup, t.node))
  }

  /** The decision for one remapped candidate against the recipient's
   *  methods, as a value: the first method with the candidate's name and
   *  descriptor is renamed before anything is decided. */
  function UpdateAndVerify(methods: seq<MethodNode>, t: MethodTransplant): (s: Step<MethodTransplant>)
    requires t.donor in t.lookup
    ensures |s.methods| == |methods| || (s.outcome.Ok? && t.node.isFuse && |s.methods| == |methods| - 1)
    ensures s.outcome.Ok? ==> s.outcome.value.donor == t.donor && s.outcome.value.lookup == t.lookup
    ensures s.outcome.Ok? ==> SignatureEquals(s.outcome.value.node, t.node.name, t.node.desc)
    ensures s.outcome.Err? ==> s.outcome.error == MethodAlreadyExists(t.donor, t.node.name)
                               || s.outcome.error == WrongFuseSignature(t.donor, t.node.name)
  {
    var k := FindSignature(methods, t.node.name, t.node.desc);
    var renamed := if k.Some? then methods[k.value := Renamed(methods[k.value])] else methods;
    var doFuse := t.node.isFuse;
    var canFuse := k.Some?;
    var self := t.lookup[t.donor];
    if !doFuse && canFuse then Step(Err(MethodAlreadyExists(t.donor, t.node.name)), renamed)
    else if doFuse && !canFuse then Step(Err(WrongFuseSignature(t.donor, t.node.name)), renamed)
    else if !doFuse && !canFuse then Step(Ok(t), renamed)
    else
      var fused := t.node.(insns := Redirected(t.node.insns, self, t.node.name, t.node.desc, renamed[k.value].name));
      var kept :=
        if Occurrences(t.node.insns, MethodInsn(self, t.node.name, t.node.desc)) == 0 then renamed[..k.value] + renamed[k.value + 1..]
        else renamed;
      Step(Ok(t.(node := fused)), kept)
  }

  /** One method transplant applied to the recipient's methods: remapped,
   *  decided, and on success appended. */
  function FuseStep(methods: seq<MethodNode>, t: MethodTransplant): (s: Step<()>)
    requires t.donor in t.lookup
    ensures s.outcome.Err? ==> |s.methods| == |methods|
    ensures s.outcome.Ok? ==> |methods| <= |s.methods| <= |methods| + 1
    ensures s.outcome.Err? ==> (s.outcome.error.MethodAlreadyExists? || s.outcome.error.WrongFuseSignature?)
                               && s.outcome.error.donor == t.donor
  {
    var u := UpdateAndVerify(methods, SubstituteTransplants(t));
    match u.outcome
    case Err(e) => Step(Err(e), u.methods)
    case Ok(done) => Step(Ok(()), u.methods + [done.node])
  }

  /** The candidates fused one after the other, stopping at the first error. */
  function MethodStage(methods: seq<MethodNode>, candidates: seq<MethodNode>, donor: string,
                       lookup: map<string, string>): (s: Step<()>)
    requires donor in lookup
    ensures |methods| <= |s.methods| <= |methods| + |candidates|
    decreases |candidates|
  {
    if candidates == [] then Step(Ok(()), methods)
    else
      var s := FuseStep(methods, MethodTransplant(donor, candidates[0], lookup));
      if s.outcome.Err? then s else MethodStage(s.methods, candidates[1..], donor, lookup)
  }

  /** The four-way decision, with `canFuse` meaning that the recipient has a
   *  method with the remapped candidate's name and descriptor. */
  lemma FuseDecision(methods: seq<MethodNode>, t: MethodTransplant)
    requires t.donor in t.lookup
    ensures var node := RemapMethod(t.lookup, t.node);
            var canFuse := exists j :: 0 <= j < |methods| && SignatureEquals(methods[j], node.name, node.desc);
            var s := FuseStep(methods, t);
            && (!t.node.isFuse && canFuse ==> s.outcome == Err(MethodAlreadyExists(t.donor, t.node.name)))
            && (t.node.isFuse && !canFuse ==> s.outcome == Err(WrongFuseSignature(t.donor, t.node.name)) && s.methods == methods)
            && (!t.node.isFuse && !canFuse ==> s.outcome == Ok(()) && s.methods == methods + [node])
            && (t.node.isFuse && canFuse ==> s.outcome == Ok(()) && |s.methods| >= |methods|)
  {
  }

  /** A non-fused candidate that collides fails, but the colliding recipient
   *  method has already been renamed and stays renamed. */
  lemma CollisionLeavesOriginalRenamed(methods: seq<MethodNode>, t: MethodTransplant, k: nat)
    requires t.donor in t.lookup && !t.node.isFuse
    requires k < |methods| && SignatureEquals(methods[k], t.node.name, MapMethodDesc(t.lookup, t.node.desc))
    requires forall j :: 0 <= j < k ==> !SignatureEquals(methods[j], t.node.name, MapMethodDesc(t.lookup, t.node.desc))
    ensures FuseStep(methods, t)
         == Step(Err(MethodAlreadyExists(t.donor, t.node.name)),
                 methods[k := methods[k].(name := t.node.name + "$original")])
  {
  }

  /** Fusion proper: the candidate's calls to itself on the donor's remapped
   *  type are pointed at the renamed original; the original is dropped when
   *  no call was redirected and kept in place otherwise; the rewritten
   *  candidate comes last. No self-call is left in it, and each redirected
   *  call now reaches the original. */
  lemma FusionOutcome(methods: seq<MethodNode>, t: MethodTransplant, k: nat)
    requires t.donor in t.lookup && t.node.isFuse
    requires k < |methods| && SignatureEquals(methods[k], t.node.name, MapMethodDesc(t.lookup, t.node.desc))
    requires forall j :: 0 <= j < k ==> !SignatureEquals(methods[j], t.node.name, MapMethodDesc(t.lookup, t.node.desc))
    ensures var node := RemapMethod(t.lookup, t.node);
            var call := MethodInsn(t.lookup[t.donor], node.name, node.desc);
            var toOriginal := MethodInsn(t.lookup[t.donor], node.name + "$original", node.desc);
            var n := Occurrences(node.insns, call);
            var original := methods[k].(name := node.name + "$original");
            var s := FuseStep(methods, t);
            && s.outcome == Ok(())
            && s.methods[..|s.methods| - 1]
               == (if n == 0 then methods[..k] + methods[k + 1..] else methods[k := original])
            && s.methods[|s.methods| - 1].name == node.name
            && s.methods[|s.methods| - 1].desc == node.desc
            && |s.methods[|s.methods| - 1].insns| == |node.insns|
            && Occurrences(s.methods[|s.methods| - 1].insns, call) == 0
            && Occurrences(s.methods[|s.methods| - 1].insns, toOriginal)
               == Occurrences(node.insns, toOriginal) + n
            && s.methods[|s.methods| - 1]
               == node.(insns := Redirected(node.insns, t.lookup[t.donor], node.name, node.desc, node.name + "$original"))
  {
    var node := RemapMethod(t.lookup, t.node);
    assert node.name + "$original" != node.name by {
      assert |node.name + "$original"| > |node.name|;
    }
    RedirectedCounts(node.insns, t.lookup[t.donor], node.name, node.desc, node.name + "$original");
  }

  /** If the recipient had at most one method with the remapped candidate's
   *  name and descriptor, then after a successful step it has exactly one:
   *  the candidate, appended last. */
  lemma FuseKeepsSignatureUnique(methods: seq<MethodNode>, t: MethodTransplant)
    requires t.donor in t.lookup
    requires forall i, j :: 0 <= i < j < |methods| && SignatureEquals(methods[i], t.node.name, MapMethodDesc(t.lookup, t.node.desc))
               ==> !SignatureEquals(methods[j], t.node.name, MapMethodDesc(t.lookup, t.node.desc))
    ensures var s := FuseStep(methods, t);
            s.outcome.Ok? ==>
              && s.methods != []
              && SignatureEquals(s.methods[|s.methods| - 1], t.node.name, MapMethodDesc(t.lookup, t.node.desc))
              && forall j :: 0 <= j < |s.methods| - 1 ==> !SignatureEquals(s.methods[j], t.node.name, MapMethodDesc(t.lookup, t.node.desc))
  {
    var node := RemapMethod(t.lookup, t.node);
    var s := FuseStep(methods, t);
    var k := FindSignature(methods, node.name, node.desc);
    if s.outcome.Ok? && k.Some? {
      var ren := methods[k.value := Renamed(methods[k.value])];
      assert |Renamed(methods[k.value]).name| > |node.name|;
      assert forall j :: 0 <= j < |ren| ==> !SignatureEquals(ren[j], node.name, node.desc);
    }
  }

  /** The method stage stops at the first failing candidate: its result is
   *  that candidate's step applied to the state the earlier candidates,
   *  all of them grafted successfully, left behind. */
  lemma {:induction false} MethodStageStopsAtFirstError(methods: seq<MethodNode>, candidates: seq<MethodNode>,
                                                       donor: string, lookup: map<string, string>)
    requires donor in lookup
    ensures var r := MethodStage(methods, candidates, donor, lookup);
            r.outcome.Err? ==>
              exists k :: 0 <= k < |candidates|
                && MethodStage(methods, candidates[..k], donor, lookup).outcome.Ok?
                && FuseStep(MethodStage(methods, candidates[..k], donor, lookup).methods,
                            MethodTransplant(donor, candidates[k], lookup)) == r
    decreases |candidates|
  {
    var r := MethodStage(methods, candidates, donor, lookup);
    if candidates != [] && r.outcome.Err? {
      var s := FuseStep(methods, MethodTransplant(donor, candidates[0], lookup));
      if s.outcome.Err? {
        assert candidates[..0] == [];
        assert MethodStage(methods, candidates[..0], donor, lookup) == Step(Ok(()), methods);
      } else {
        MethodStageStopsAtFirstError(s.methods, candidates[1..], donor, lookup);
        var k' :| 0 <= k' < |candidates[1..]|
          && MethodStage(s.methods, candidates[1..][..k'], donor, lookup).outcome.Ok?
          && FuseStep(MethodStage(s.methods, candidates[1..][..k'], donor, lookup).methods,
                      MethodTransplant(donor, candidates[1..][k'], lookup)) == r;
        assert candidates[..k' + 1][1..] == candidates[1..][..k'];
        assert MethodStage(methods, candidates[..k' + 1], donor, lookup)
            == MethodStage(s.methods, candidates[1..][..k'], donor, lookup);
      }
    }
  }

  /** When the method stage succeeds, every candidate's step succeeded in turn. */
  lemma {:induction false} MethodStageSucceedsStepwise(methods: seq<MethodNode>, candidates: seq<MethodNode>,
                                                      donor: string, lookup: map<string, string>, k: nat)
    requires donor in lookup && k < |candidates|
    requires MethodStage(methods, candidates, donor, lookup).outcome.Ok?
    ensures MethodStage(methods, candidates[..k], donor, lookup).outcome.Ok?
    ensures FuseStep(MethodStage(methods, candidates[..k], donor, lookup).methods,
                     MethodTransplant(donor, candidates[k], lookup)).outcome.Ok?
    decreases k
  {
    var s := FuseStep(methods, MethodTransplant(donor, candidates[0], lookup));
    if k == 0 {
      assert candidates[..0] == [];
    } else {
      MethodStageSucceedsStepwise(s.methods, candidates[1..], donor, lookup, k - 1);
      assert candidates[..k][1..] == candidates[1..][..k - 1];
    }
  }

  /** The method stage only ever fails with one of the two method errors. */
  lemma {:induction false} MethodStageErrors(methods: seq<MethodNode>, candidates: seq<MethodNode>,
                                            donor: string, lookup: map<string, string>)
    requires donor in lookup
    ensures var r := MethodStage(methods, candidates, donor, lookup);
            r.outcome.Err? ==>
              (r.outcome.error.MethodAlreadyExists? || r.outcome.error.WrongFuseSignature?)
              && r.outcome.error.donor == donor
    decreases |candidates|
  {
    if candidates != [] {
      var s := FuseStep(methods, MethodTransplant(donor, candidates[0], lookup));
      if s.outcome.Ok? {
        MethodStageErrors(s.methods, candidates[1..], donor, lookup);
      }
    }
  }

  /** The name carries the suffix a replaced recipient method is given. */
  predicate IsRenamedOriginal(name: string)
  {
    |OriginalSuffix| <= |name| && name[|name| - |OriginalSuffix|..] == OriginalSuffix
  }

  /** No two methods, renamed originals aside, share a name and descriptor. */
  predicate DistinctSignatures(methods: seq<MethodNode>)
  {
    forall i, j :: 0 <= i < j < |methods| && !IsRenamedOriginal(methods[i].name) && !IsRenamedOriginal(methods[j].name)
      ==> !SignatureEquals(methods[i], methods[j].name, methods[j].desc)
  }

  /** No method, renamed originals aside, has the given name and descriptor. */
  predicate NoneWithSignature(methods: seq<MethodNode>, name: string, desc: MethodDesc)
  {
    forall m :: m in methods && !IsRenamedOriginal(m.name) ==> !SignatureEquals(m, name, desc)
  }

  lemma RenamedIsOriginal(m: MethodNode)
    ensures IsRenamedOriginal(Renamed(m).name)
  {
    var n := Renamed(m).name;
    assert n[|n| - |OriginalSuffix|..] == OriginalSuffix;
  }

  lemma AppendKeepsDistinct(methods: seq<MethodNode>, x: MethodNode)
    requires DistinctSignatures(methods)
    requires IsRenamedOriginal(x.name) || NoneWithSignature(methods, x.name, x.desc)
    ensures DistinctSignatures(methods + [x])
  {
    var r := methods + [x];
    forall i, j | 0 <= i < j < |r| && !IsRenamedOriginal(r[i].name) && !IsRenamedOriginal(r[j].name)
      ensures !SignatureEquals(r[i], r[j].name, r[j].desc)
    {
      if j == |methods| {
        assert r[i] in methods;
      }
    }
  }

  lemma RemoveKeepsDistinct(methods: seq<MethodNode>, k: nat, name: string, desc: MethodDesc)
    requires k < |methods| && DistinctSignatures(methods) && NoneWithSignature(methods, name, desc)
    ensures DistinctSignatures(methods[..k] + methods[k + 1..])
    ensures NoneWithSignature(methods[..k] + methods[k + 1..], name, desc)
  {
    var r := methods[..k] + methods[k + 1..];
    forall i, j | 0 <= i < j < |r| && !IsRenamedOriginal(r[i].name) && !IsRenamedOriginal(r[j].name)
      ensures !SignatureEquals(r[i], r[j].name, r[j].desc)
    {
      var i' := if i < k then i else i + 1;
      var j' := if j < k then j else j + 1;
      assert r[i] == methods[i'] && r[j] == methods[j'];
    }
    forall m | m in r ensures m in methods {
      var i :| 0 <= i < |r| && r[i] == m;
      assert m == methods[if i < k then i else i + 1];
    }
  }

  /** Renaming the first recipient method with the candidate's signature
   *  leaves none with that signature, renamed originals aside. */
  lemma RenameClearsSignature(methods: seq<MethodNode>, k: nat, name: string, desc: MethodDesc)
    requires DistinctSignatures(methods)
    requires k < |methods| && SignatureEquals(methods[k], name, desc)
    ensures DistinctSignatures(methods[k := Renamed(methods[k])])
    ensures NoneWithSignature(methods[k := Renamed(methods[k])], name, desc)
  {
    var r := methods[k := Renamed(methods[k])];
    RenamedIsOriginal(methods[k]);
    forall m | m in r && !IsRenamedOriginal(m.name) ensures !SignatureEquals(m, name, desc) {
      var j :| 0 <= j < |r| && r[j] == m;
      if j != k {
        assert methods[j] == m;
      }
    }
  }

  /** One method step, whatever its outcome, never leaves two methods with
   *  the same name and descriptor unless one is a renamed original. */
  lemma FuseStepKeepsSignaturesDistinct(methods: seq<MethodNode>, t: MethodTransplant)
    requires t.donor in t.lookup && DistinctSignatures(methods)
    ensures DistinctSignatures(FuseStep(methods, t).methods)
  {
    var st := SubstituteTransplants(t);
    var node := st.node;
    var k := FindSignature(methods, node.name, node.desc);
    var u := UpdateAndVerify(methods, st);
    if k.None? {
      if u.outcome.Ok? {
        assert u.outcome.value.node == node;
        AppendKeepsDistinct(methods, node);
      }
    } else {
      var ren := methods[k.value := Renamed(methods[k.value])];
      RenameClearsSignature(methods, k.value, node.name, node.desc);
      if u.outcome.Ok? {
        var fused := u.outcome.value.node;
        assert fused.name == node.name && fused.desc == node.desc;
        if u.methods != ren {
          assert u.methods == ren[..k.value] + ren[k.value + 1..];
          RemoveKeepsDistinct(ren, k.value, node.name, node.desc);
        }
        AppendKeepsDistinct(u.methods, fused);
      }
    }
  }

  /** The method stage keeps method signatures distinct, renamed originals aside. */
  lemma {:induction false} MethodStageKeepsSignaturesDistinct(methods: seq<MethodNode>, candidates: seq<MethodNode>,
                                                             donor: string, lookup: map<string, string>)
    requires donor in lookup && DistinctSignatures(methods)
    ensures DistinctSignatures(MethodStage(methods, candidates, donor, lookup).methods)
    decreases |candidates|
  {
    if candidates != [] {
      var t := MethodTransplant(donor, candidates[0], lookup);
      FuseStepKeepsSignaturesDistinct(methods, t);
      var s := FuseStep(methods, t);
      if s.outcome.Ok? {
        MethodStageKeepsSignaturesDistinct(s.methods, candidates[1..], donor, lookup);
      }
    }
  }
}
