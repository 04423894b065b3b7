/** What the renderer gathers from its sections: every displayed input by
    field API name, and every field that fails its own validation. */
module FormSections {
  import opened FormTypes

  /** The inputs of all sections merged as Object.assign merges them in
      order: a later section's input wins for a name two sections share. */
  function MergedFields(sections: seq<Section>): map<string, FieldInput> {
    if sections == [] then map[]
    else MergedFields(sections[..|sections| - 1]) + sections[|sections| - 1].fieldsByApiName
  }

  /** A name is displayed exactly when some section shows it, and then it
      maps to the input of the last section that shows it. */
  lemma {:induction false} MergedFieldsLastWins(sections: seq<Section>, name: string)
    ensures name in MergedFields(sections) <==>
              exists i :: 0 <= i < |sections| && name in sections[i].fieldsByApiName
    ensures name in MergedFields(sections) ==>
              exists i :: 0 <= i < |sections| && name in sections[i].fieldsByApiName
                          && MergedFields(sections)[name] == sections[i].fieldsByApiName[name]
                          && forall j :: i < j < |sections| ==> name !in sections[j].fieldsByApiName
  {
    if sections != [] {
      var n := |sections| - 1;
      var prefix := sections[..n];
      MergedFieldsLastWins(prefix, name);
      assert forall i :: 0 <= i < n ==> prefix[i] == sections[i];
      if name in sections[n].fieldsByApiName {
        assert MergedFields(sections)[name] == sections[n].fieldsByApiName[name];
      } else if name in MergedFields(prefix) {
        var i :| 0 <= i < n && name in prefix[i].fieldsByApiName
                 && MergedFields(prefix)[name] == prefix[i].fieldsByApiName[name]
                 && forall j :: i < j < n ==> name !in prefix[j].fieldsByApiName;
        assert MergedFields(sections)[name] == sections[i].fieldsByApiName[name];
      }
    }
  }

  /** The invalid fields of all sections, concatenated in section order. */
  function AllInvalidFields(sections: seq<Section>): seq<string> {
    if sections == [] then []
    else AllInvalidFields(sections[..|sections| - 1]) + sections[|sections| - 1].invalidFields
  }

  /** The concatenation is empty exactly when no section reports an invalid field. */
  lemma {:induction false} AllInvalidFieldsEmpty(sections: seq<Section>)
    ensures AllInvalidFields(sections) == [] <==>
              forall i :: 0 <= i < |sections| ==> sections[i].invalidFields == []
  {
    if sections != [] {
      var n := |sections| - 1;
      AllInvalidFieldsEmpty(sections[..n]);
      assert forall i :: 0 <= i < n ==> sections[..n][i] == sections[i];
    }
  }

  /** Every field a section reports as invalid is in the concatenation, and nothing else is. */
  lemma {:induction false} AllInvalidFieldsMembers(sections: seq<Section>, f: string)
    ensures f in AllInvalidFields(sections) <==>
              exists i :: 0 <= i < |sections| && f in sections[i].invalidFields
  {
    if sections != [] {
      var n := |sections| - 1;
      AllInvalidFieldsMembers(sections[..n], f);
      assert forall i :: 0 <= i < n ==> sections[..n][i] == sections[i];
    }
  }

  /** The error toast isFormValid shows for a non-empty list of invalid fields. */
  function InvalidFormToast(invalidFields: seq<string>): Toast {
    Toast("Invalid Form", "The following fields are required: " + Join(invalidFields, ", "), "error")
  }
}
