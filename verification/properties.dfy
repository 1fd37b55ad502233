/** What the transplant pipeline promises, stated over its value form
 *  `Operations.Transplanted` (which `Operations.Transplant` is proved to
 *  follow) and over its field and interface steps. */
module Properties {
  import opened Results
  import opened Nodes
  import opened Remapping
  import opened Classifier
  import opened Fusion
  import opened Operations

  /** A donor that extends anything but the root class is rejected before
   *  anything happens to the recipient. */
  lemma PreflightRejects(donor: ClassDef, recipient: ClassDef, lookup: map<string, string>, verify: Verifier)
    requires donor.name in lookup && donor.superName != JavaLangObject
    ensures Transplanted(donor, recipient, lookup, verify)
         == Outcome(Err(TransplantMustNotExtendClass(donor.name)), recipient)
  {
  }

  /** The interface step is all or nothing: if any donor interface is
   *  already implemented by the recipient none is added, otherwise all of
   *  them are appended in the donor's order. */
  lemma InterfacesAllOrNothing(donor: ClassDef, recipientInterfaces: seq<string>)
    ensures InterfacesAfter(donor, recipientInterfaces)
         == if exists i :: i in donor.interfaces && i in recipientInterfaces then recipientInterfaces
            else recipientInterfaces + donor.interfaces
  {
    var f := (i: string) => CheckRecipientInterface(recipientInterfaces, donor.name, i);
    var r := MapAll(donor.interfaces, f);
    if exists i :: i in donor.interfaces && i in recipientInterfaces {
      var i :| i in donor.interfaces && i in recipientInterfaces;
      var k :| 0 <= k < |donor.interfaces| && donor.interfaces[k] == i;
      assert f(donor.interfaces[k]).Err?;
    } else {
      assert forall k :: 0 <= k < |donor.interfaces| ==> f(donor.interfaces[k]).Ok?;
      assert r.value == donor.interfaces;
    }
  }

  /** The field checks accept the graftable fields exactly when none of
   *  them is stored to by a donor constructor or static initialiser and
   *  none has the name of a recipient field; the accepted transplants carry
   *  the graftable fields in donor order, stamped with the donor's remapped
   *  name. */
  lemma FieldChecksAccept(donor: ClassDef, recipientFields: seq<FieldNode>, lookup: map<string, string>)
    ensures var c := GraftableFields(donor);
            var r := FieldTransplants(donor, recipientFields, lookup);
            && (r.Ok? <==> forall i :: 0 <= i < |c| ==>
                             !InitializedInCtor(donor, c[i].name) && !NamePresent(recipientFields, c[i].name))
            && (r.Ok? ==> FieldsOf(r.value) == c
                          && forall i :: 0 <= i < |r.value| ==> r.value[i].donor == MapType(lookup, donor.name))
  {
    var c := GraftableFields(donor);
    var init := MapAll(c, VerifyFieldsNotInitialized(donor));
    var r := FieldTransplants(donor, recipientFields, lookup);
    if init.Ok? {
      assert init.value == c;
      var g := (t: FieldTransplant) => VerifyFieldNotPresent(recipientFields, t);
      var present := MapAll(Envelopes(donor.name, c), g);
      if present.Ok? {
        assert FieldsOf(r.value) == c;
      } else {
        var k := FirstFailure(Envelopes(donor.name, c), g);
        assert NamePresent(recipientFields, c[k].name);
      }
    } else {
      var k := FirstFailure(c, VerifyFieldsNotInitialized(donor));
      assert InitializedInCtor(donor, c[k].name);
    }
  }

  /** When a graftable field is stored to by a donor constructor or static
   *  initialiser, the field step fails with `FieldDefaultValueNotSupported`
   *  for the first such field, whatever clashes with recipient names exist. */
  lemma FieldDefaultValueRejected(donor: ClassDef, recipientFields: seq<FieldNode>, lookup: map<string, string>)
    requires exists i :: 0 <= i < |GraftableFields(donor)| && InitializedInCtor(donor, GraftableFields(donor)[i].name)
    ensures var c := GraftableFields(donor);
            exists k :: 0 <= k < |c| && InitializedInCtor(donor, c[k].name)
              && (forall j :: 0 <= j < k ==> !InitializedInCtor(donor, c[j].name))
              && FieldTransplants(donor, recipientFields, lookup) == Err(FieldDefaultValueNotSupported(donor.name, c[k].name))
  {
    var c := GraftableFields(donor);
    var check := VerifyFieldsNotInitialized(donor);
    var i :| 0 <= i < |c| && InitializedInCtor(donor, c[i].name);
    assert check(c[i]).Err?;
    var init := MapAll(c, check);
    assert init.Err?;
    var k := FirstFailure(c, check);
    assert init.error == FieldDefaultValueNotSupported(donor.name, c[k].name);
    assert FieldTransplants(donor, recipientFields, lookup) == Err(init.error);
    assert InitializedInCtor(donor, c[k].name);
    assert forall j :: 0 <= j < k ==> !InitializedInCtor(donor, c[j].name) by {
      forall j | 0 <= j < k ensures !InitializedInCtor(donor, c[j].name) {
        assert check(c[j]).Ok?;
      }
    }
  }

  /** When no graftable field is initialised, the field step fails exactly
   *  as the presence checks on the wrapped graftable fields do. */
  lemma PresenceDecides(donor: ClassDef, recipientFields: seq<FieldNode>, lookup: map<string, string>)
    requires forall i :: 0 <= i < |GraftableFields(donor)| ==> !InitializedInCtor(donor, GraftableFields(donor)[i].name)
    ensures var present := MapAll(Envelopes(donor.name, GraftableFields(donor)),
                                  (t: FieldTransplant) => VerifyFieldNotPresent(recipientFields, t));
            var r := FieldTransplants(donor, recipientFields, lookup);
            r.Err? == present.Err? && (r.Err? ==> r.error == present.error)
  {
    var c := GraftableFields(donor);
    var check := VerifyFieldsNotInitialized(donor);
    assert forall i :: 0 <= i < |c| ==> check(c[i]).Ok?;
    var init := MapAll(c, check);
    assert init.value == c;
  }

  /** When no graftable field is initialised but some share a name with a
   *  recipient field, the field step fails with `FieldAlreadyExists` for the
   *  first of them. */
  lemma FieldClashRejected(donor: ClassDef, recipientFields: seq<FieldNode>, lookup: map<string, string>)
    requires forall i :: 0 <= i < |GraftableFields(donor)| ==> !InitializedInCtor(donor, GraftableFields(donor)[i].name)
    requires exists i :: 0 <= i < |GraftableFields(donor)| && NamePresent(recipientFields, GraftableFields(donor)[i].name)
    ensures var c := GraftableFields(donor);
            exists k :: 0 <= k < |c| && NamePresent(recipientFields, c[k].name)
              && (forall j :: 0 <= j < k ==> !NamePresent(recipientFields, c[j].name))
              && FieldTransplants(donor, recipientFields, lookup) == Err(FieldAlreadyExists(donor.name, c[k].name))
  {
    var c := GraftableFields(donor);
    var envs := Envelopes(donor.name, c);
    var g := (t: FieldTransplant) => VerifyFieldNotPresent(recipientFields, t);
    PresenceDecides(donor, recipientFields, lookup);
    var i :| 0 <= i < |c| && NamePresent(recipientFields, c[i].name);
    assert envs[i] == FieldTransplant(donor.name, c[i]);
    assert g(envs[i]).Err?;
    var present := MapAll(envs, g);
    assert present.Err?;
    var k := FirstFailure(envs, g);
    assert envs[k] == FieldTransplant(donor.name, c[k]);
    assert present.error == FieldAlreadyExists(donor.name, c[k].name);
    assert NamePresent(recipientFields, c[k].name);
    assert forall j :: 0 <= j < k ==> !NamePresent(recipientFields, c[j].name) by {
      forall j | 0 <= j < k ensures !NamePresent(recipientFields, c[j].name) {
        assert envs[j] == FieldTransplant(donor.name, c[j]);
        assert g(envs[j]).Ok?;
      }
    }
  }

  /** Fields move all or nothing: when the field step fails the transplant
   *  fails with the recipient's fields and methods as they were; otherwise
   *  every graftable field is appended, in donor order, and only those. */
  lemma FieldsAllOrNothing(donor: ClassDef, recipient: ClassDef, lookup: map<string, string>, verify: Verifier)
    requires donor.name in lookup && donor.superName == JavaLangObject
    ensures var o := Transplanted(donor, recipient, lookup, verify);
            var c := GraftableFields(donor);
            if forall i :: 0 <= i < |c| ==> !InitializedInCtor(donor, c[i].name) && !NamePresent(recipient.fields, c[i].name)
            then o.recipient.fields == recipient.fields + c
            else o.result.Err? && o.recipient.fields == recipient.fields && o.recipient.methods == recipient.methods
  {
    FieldChecksAccept(donor, recipient.fields, lookup);
  }

  /** Field names stay distinct: if the recipient's field names and the
   *  donor's graftable field names are each distinct, so are the recipient's
   *  field names after the transplant, whatever its outcome. */
  lemma FieldNamesStayDistinct(donor: ClassDef, recipient: ClassDef, lookup: map<string, string>, verify: Verifier)
    requires donor.name in lookup
    requires forall i, j :: 0 <= i < j < |recipient.fields| ==> recipient.fields[i].name != recipient.fields[j].name
    requires var c := GraftableFields(donor);
             forall i, j :: 0 <= i < j < |c| ==> c[i].name != c[j].name
    ensures var fs := Transplanted(donor, recipient, lookup, verify).recipient.fields;
            forall i, j :: 0 <= i < j < |fs| ==> fs[i].name != fs[j].name
  {
    var o := Transplanted(donor, recipient, lookup, verify);
    var fs := o.recipient.fields;
    if donor.superName == JavaLangObject && fs != recipient.fields {
      FieldsAllOrNothing(donor, recipient, lookup, verify);
      var c := GraftableFields(donor);
      var n := |recipient.fields|;
      assert fs == recipient.fields + c;
      forall i, j | 0 <= i < j < |fs| ensures fs[i].name != fs[j].name {
        if j >= n && i < n {
          assert !NamePresent(recipient.fields, c[j - n].name);
          assert fs[i] in recipient.fields;
        }
      }
    }
  }

  /** An interface conflict is never what makes a transplant fail: the
   *  errors the pipeline raises itself are the pre-flight, field and method
   *  errors, and any other error is the structural verifier's verdict on the
   *  merged recipient. */
  lemma FailuresAreFatalErrors(donor: ClassDef, recipient: ClassDef, lookup: map<string, string>, verify: Verifier)
    requires donor.name in lookup
    ensures var o := Transplanted(donor, recipient, lookup, verify);
            o.result.Err? ==>
              || o.result.error == TransplantMustNotExtendClass(donor.name)
              || ((o.result.error.FieldDefaultValueNotSupported? || o.result.error.FieldAlreadyExists?)
                  && o.result.error.donor == donor.name)
              || ((o.result.error.MethodAlreadyExists? || o.result.error.WrongFuseSignature?)
                  && o.result.error.donor == donor.name)
              || o.result == verify(o.recipient)
  {
    if donor.superName == JavaLangObject {
      var withInterfaces := recipient.(interfaces := InterfacesAfter(donor, recipient.interfaces));
      var c := GraftableFields(donor);
      var r := FieldTransplants(donor, withInterfaces.fields, lookup);
      if r.Err? {
        if exists i :: 0 <= i < |c| && InitializedInCtor(donor, c[i].name) {
          FieldDefaultValueRejected(donor, withInterfaces.fields, lookup);
        } else {
          FieldChecksAccept(donor, withInterfaces.fields, lookup);
          FieldClashRejected(donor, withInterfaces.fields, lookup);
        }
      } else {
        var withFields := withInterfaces.(fields := withInterfaces.fields + FieldsOf(r.value));
        MethodStageErrors(withFields.methods, GraftableMethods(donor), donor.name, lookup);
      }
    }
  }

  /** No partial success is reported as success: a transplant succeeds only
   *  when every step passed and the verifier accepted the merged recipient,
   *  which then has the interface step's interfaces, all graftable fields
   *  appended, and its name, superclass and annotation unchanged. */
  lemma SuccessMeansEveryStepPassed(donor: ClassDef, recipient: ClassDef, lookup: map<string, string>, verify: Verifier)
    requires donor.name in lookup
    ensures var o := Transplanted(donor, recipient, lookup, verify);
            o.result.Ok? ==>
              && donor.superName == JavaLangObject
              && verify(o.recipient).Ok?
              && o.recipient.interfaces == InterfacesAfter(donor, recipient.interfaces)
              && o.recipient.fields == recipient.fields + GraftableFields(donor)
              && o.recipient.name == recipient.name
              && o.recipient.superName == recipient.superName
              && o.recipient.recipient == recipient.recipient
  {
    if donor.superName == JavaLangObject {
      FieldsAllOrNothing(donor, recipient, lookup, verify);
      FieldChecksAccept(donor, recipient.fields, lookup);
    }
  }

  /** Method signatures stay distinct: if no two recipient methods share a
   *  name and descriptor, renamed originals aside, the same holds of the
   *  recipient after the transplant, whatever its outcome. */
  lemma MethodSignaturesStayDistinct(donor: ClassDef, recipient: ClassDef, lookup: map<string, string>, verify: Verifier)
    requires donor.name in lookup && DistinctSignatures(recipient.methods)
    ensures DistinctSignatures(Transplanted(donor, recipient, lookup, verify).recipient.methods)
  {
    MethodStageKeepsSignaturesDistinct(recipient.methods, GraftableMethods(donor), donor.name, lookup);
  }
}
