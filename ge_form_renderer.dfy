/** The gift entry form renderer: its error bookkeeping, spinner, Save
    button, create/update mode and the record it submits. The sections are
    child components; what they report (their invalid fields, their inputs
    by field API name, the record built from their values) is passed in. */
module GeFormRendererModel {
  import opened FormTypes
  import opened FormSections
  import opened ErrorRouting
  import opened SubmittedRecord

  /** What the remote save reported (or, in batch mode, which of the
      success and error callbacks the parent called). */
  datatype SaveResult = Saved(recordId: string) | SaveFailed(wrapper: ExceptionWrapper)

  /** What handleSave led to outside the renderer's own state. */
  datatype SaveEffect =
    | ShowedToast(toast: Toast)
    | SubmittedToParent(data: Record)
    | NavigatedToRecord(recordId: string)
    | ErrorsShown
    | ReferenceErrorThrown

  class GeFormRenderer {
    var batchId: JsValue
    var showSpinner: bool
    var hasPageLevelError: bool
    var pageLevelErrorMessageList: seq<PageLevelError>
    var erroredFields: seq<FieldInput>
    /** The custom-validity message of each rendered input; an input not in the map has ''. */
    var customValidity: map<FieldInput, string>
    /** The row being updated in update mode. */
    var dataRow: Option<Record>
    /** Whether the Save button that started the last save is disabled. */
    var saveButtonDisabled: bool

    constructor (batchId: JsValue)
      ensures this.batchId == batchId
      ensures !showSpinner && !hasPageLevelError && !saveButtonDisabled
      ensures pageLevelErrorMessageList == [] && erroredFields == [] && customValidity == map[]
      ensures dataRow == None
      ensures Valid()
    {
      this.batchId := batchId;
      showSpinner, hasPageLevelError, saveButtonDisabled := false, false, false;
      pageLevelErrorMessageList, erroredFields, customValidity := [], [], map[];
      dataRow := None;
    }

    /** The error display state held in the renderer's fields. */
    function Errors(): ErrorView
      reads this
    {
      ErrorView(pageLevelErrorMessageList, erroredFields, customValidity)
    }

    /** The renderer's invariant: every input that carries a custom-validity
        message is among the errored inputs, so clearErrors can reset it. */
    ghost predicate Valid()
      reads this
    {
      ErroredCoversInvalid(Errors())
    }

    method ToggleSpinner()
      modifies this`showSpinner
      ensures showSpinner == !old(showSpinner)
    {
      showSpinner := !showSpinner;
    }

    /** clearErrors: empties the page-level list, resets every errored
        input's custom validity to '' and forgets the errored inputs. */
    method ClearErrors()
      modifies this`pageLevelErrorMessageList, this`erroredFields, this`customValidity
      ensures Errors() == ClearedView(old(Errors()))
      ensures pageLevelErrorMessageList == [] && erroredFields == []
      ensures forall i :: i in old(erroredFields) ==> ValidityOf(customValidity, i) == ""
      ensures forall i :: i !in old(erroredFields) ==> ValidityOf(customValidity, i) == ValidityOf(old(customValidity), i)
      ensures old(Valid()) ==> Valid() && forall i :: ValidityOf(customValidity, i) == ""
    {
      pageLevelErrorMessageList := [];
      if |erroredFields| > 0 {
        var k := 0;
        while k < |erroredFields|
          invariant 0 <= k <= |erroredFields|
          invariant erroredFields == old(erroredFields) && pageLevelErrorMessageList == []
          invariant customValidity == SetValidity(old(customValidity), erroredFields[..k], "")
        {
          assert erroredFields[..k + 1] == erroredFields[..k] + [erroredFields[k]];
          SetValiditySnoc(old(customValidity), erroredFields[..k], erroredFields[k], "");
          customValidity := customValidity[erroredFields[k] := ""];
          k := k + 1;
        }
        assert erroredFields[..k] == erroredFields;
      }
      assert customValidity == SetValidity(old(customValidity), old(erroredFields), "");
      erroredFields := [];
      ClearedViewEffect(old(Errors()));
      if old(Valid()) {
        ClearingLeavesAllValid(old(Errors()));
      }
    }

    /** getDisplayedFieldsMappedByAPIName: the inputs of all sections by
        field API name, a later section winning for a shared name. */
    method DisplayedFieldsMappedByApiName(sections: seq<Section>) returns (allFields: map<string, FieldInput>)
      ensures allFields == MergedFields(sections)
      ensures forall name :: name in allFields <==>
                exists i :: 0 <= i < |sections| && name in sections[i].fieldsByApiName
    {
      allFields := map[];
      for k := 0 to |sections|
        invariant allFields == MergedFields(sections[..k])
      {
        assert sections[..k + 1][..k] == sections[..k];
        allFields := allFields + sections[k].fieldsByApiName;
      }
      assert sections[..|sections|] == sections;
      forall name ensures name in allFields <==>
                          exists i :: 0 <= i < |sections| && name in sections[i].fieldsByApiName
      {
        MergedFieldsLastWins(sections, name);
      }
    }

    /** isFormValid: true exactly when no section reports an invalid field;
        otherwise the error toast listing all of them is shown. */
    method IsFormValid(sections: seq<Section>) returns (valid: bool, toast: Option<Toast>)
      ensures valid <==> forall i :: 0 <= i < |sections| ==> sections[i].invalidFields == []
      ensures valid <==> toast == None
      ensures !valid ==> toast == Some(InvalidFormToast(AllInvalidFields(sections)))
    {
      var invalidFields: seq<string> := [];
      for k := 0 to |sections|
        invariant invalidFields == AllInvalidFields(sections[..k])
      {
        assert sections[..k + 1][..k] == sections[..k];
        invalidFields := invalidFields + sections[k].invalidFields;
      }
      assert sections[..|sections|] == sections;
      AllInvalidFieldsEmpty(sections);
      toast := None;
      if |invalidFields| > 0 {
        toast := Some(InvalidFormToast(invalidFields));
      }
      valid := |invalidFields| == 0;
    }

    /** load: enters update mode for `row` (a null or undefined row leaves the form in create mode). */
    method Load(row: Option<Record>)
      modifies this`dataRow
      ensures dataRow == row
      ensures Mode() == Update <==> row.Some?
    {
      dataRow := row;
    }

    /** reset: back to create mode. */
    method Reset()
      modifies this`dataRow
      ensures dataRow == None
      ensures Mode() == Create && SaveActionLabel() == LabelGeSave && !IsUpdateActionDisabled()
    {
      dataRow := None;
    }

    /** The mode getter: update exactly when a row is loaded. */
    function Mode(): (m: FormMode)
      reads this
      ensures m == Update <==> dataRow.Some?
      ensures m.Name() == (if dataRow.Some? then "update" else "create")
    {
      if dataRow.Some? then Update else Create
    }

    /** The Save button's label: the update label exactly when a row is loaded. */
    function SaveActionLabel(): (shown: ActionLabel)
      reads this
      ensures shown == LabelGeUpdate <==> dataRow.Some?
    {
      match Mode()
      case Update => LabelGeUpdate
      case Create => LabelGeSave
    }

    /** Updating is disabled only for a loaded row that has already been imported. */
    function IsUpdateActionDisabled(): (disabled: bool)
      reads this
      ensures disabled ==> Mode() == Update
      ensures disabled <==> dataRow.Some? && Get(dataRow.value, StatusField) == Str("Imported")
    {
      dataRow.Some? && Get(dataRow.value, StatusField) == Str("Imported")
    }

    /** getData: completes the record built from the sections (`built`) with
        the batch lookup, when it is falsy, and with the loaded row's Id. */
    method GetData(built: Record) returns (dataImportRecord: Record)
      ensures dataImportRecord == CompletedRecord(built, batchId, dataRow)
      ensures Get(dataImportRecord, BatchLookupField)
              == if Truthy(Get(built, BatchLookupField)) then Get(built, BatchLookupField) else batchId
      ensures dataRow.Some? ==> "Id" in dataImportRecord && dataImportRecord["Id"] == Get(dataRow.value, "Id")
      ensures dataRow.None? ==> Get(dataImportRecord, "Id") == Get(built, "Id")
      ensures forall k :: k != BatchLookupField && k != "Id" ==>
                (k in dataImportRecord <==> k in built) && Get(dataImportRecord, k) == Get(built, k)
    {
      dataImportRecord := built;
      if !Truthy(Get(dataImportRecord, BatchLookupField)) {
        dataImportRecord := dataImportRecord[BatchLookupField := batchId];
      }
      if dataRow.Some? {
        dataImportRecord := dataImportRecord["Id" := Get(dataRow.value, "Id")];
      }
    }

    /** handleSave, with the asynchronous outcome (`result`) and the record
        the sections build (`built`) given as inputs: clears the errors,
        stops at an invalid form, otherwise disables the Save button, shows
        the spinner, and then either hands the completed record to the
        parent (batch mode) or saves it remotely and navigates to the new
        record or routes the failure's messages. */
    method HandleSave(sections: seq<Section>, built: Record, result: SaveResult) returns (effect: SaveEffect)
      modifies this
      ensures batchId == old(batchId)
      ensures AllInvalidFields(sections) != [] ==>
                && effect == ShowedToast(InvalidFormToast(AllInvalidFields(sections)))
                && Errors() == ClearedView(old(Errors()))
                && showSpinner == old(showSpinner) && saveButtonDisabled == old(saveButtonDisabled)
                && hasPageLevelError == old(hasPageLevelError) && dataRow == old(dataRow)
      ensures AllInvalidFields(sections) == [] && Truthy(batchId) ==>
                && effect == SubmittedToParent(CompletedRecord(built, batchId, old(dataRow)))
                && Errors() == ClearedView(old(Errors()))
                && showSpinner == old(showSpinner) && !saveButtonDisabled
                && hasPageLevelError == old(hasPageLevelError)
                && dataRow == (if result.Saved? then None else old(dataRow))
      ensures AllInvalidFields(sections) == [] && !Truthy(batchId) && result.Saved? ==>
                && effect == NavigatedToRecord(result.recordId)
                && Errors() == ClearedView(old(Errors()))
                && showSpinner == !old(showSpinner) && saveButtonDisabled
                && hasPageLevelError == old(hasPageLevelError) && dataRow == old(dataRow)
      ensures AllInvalidFields(sections) == [] && !Truthy(batchId) && result.SaveFailed? ==>
                && effect == (if HasExceptionType(result.wrapper) then ErrorsShown else ReferenceErrorThrown)
                && Errors() == RoutedView(ClearedView(old(Errors())), result.wrapper, MergedFields(sections))
                && showSpinner == old(showSpinner) && saveButtonDisabled
                && hasPageLevelError && dataRow == old(dataRow)
      ensures old(Valid()) ==> Valid()
    {
      ClearErrors();
      ghost var cleared := Errors();
      var valid, toast := IsFormValid(sections);
      AllInvalidFieldsEmpty(sections);
      if !valid {
        effect := ShowedToast(toast.value);
        return;
      }
      effect := SaveValidForm(sections, built, result);
      if old(Valid()) && !Truthy(batchId) && result.SaveFailed? {
        RoutingKeepsErroredCovered(cleared, result.wrapper, MergedFields(sections));
      }
    }

    /** The part of handleSave after validation: disables the Save button,
        shows the spinner, and submits (batch mode) or saves remotely. */
    method SaveValidForm(sections: seq<Section>, built: Record, result: SaveResult) returns (effect: SaveEffect)
      modifies this
      ensures batchId == old(batchId)
      ensures Truthy(batchId) ==>
                && effect == SubmittedToParent(CompletedRecord(built, batchId, old(dataRow)))
                && Errors() == old(Errors())
                && showSpinner == old(showSpinner) && !saveButtonDisabled
                && hasPageLevelError == old(hasPageLevelError)
                && dataRow == (if result.Saved? then None else old(dataRow))
      ensures !Truthy(batchId) && result.Saved? ==>
                && effect == NavigatedToRecord(result.recordId)
                && Errors() == old(Errors())
                && showSpinner == !old(showSpinner) && saveButtonDisabled
                && hasPageLevelError == old(hasPageLevelError) && dataRow == old(dataRow)
      ensures !Truthy(batchId) && result.SaveFailed? ==>
                && effect == (if HasExceptionType(result.wrapper) then ErrorsShown else ReferenceErrorThrown)
                && Errors() == RoutedView(old(Errors()), result.wrapper, MergedFields(sections))
                && showSpinner == old(showSpinner) && saveButtonDisabled
                && hasPageLevelError && dataRow == old(dataRow)
    {
      saveButtonDisabled := true;
      ToggleSpinner();
      if Truthy(batchId) {
        var data := GetData(built);
        effect := SubmittedToParent(data);
        // the parent answers through the success or the error callback
        saveButtonDisabled := false;
        ToggleSpinner();
        if result.Saved? {
          Reset();
        }
      } else {
        match result
        case Saved(recordId) =>
          effect := NavigatedToRecord(recordId);
        case SaveFailed(wrapper) =>
          var threw := HandleSaveFailure(sections, wrapper);
          effect := if threw then ReferenceErrorThrown else ErrorsShown;
      }
    }

    /** The failure handler of a non-batch save: hides the spinner, flags a
        page-level error and routes the payload's messages; without an
        exception type it throws a ReferenceError (`threw`). */
    method HandleSaveFailure(sections: seq<Section>, w: ExceptionWrapper) returns (threw: bool)
      modifies this`showSpinner, this`hasPageLevelError
      modifies this`pageLevelErrorMessageList, this`erroredFields, this`customValidity
      ensures showSpinner == !old(showSpinner) && hasPageLevelError
      ensures threw <==> !HasExceptionType(w)
      ensures Errors() == RoutedView(old(Errors()), w, MergedFields(sections))
    {
      ToggleSpinner();
      hasPageLevelError := true;
      var allDisplayedFields := DisplayedFieldsMappedByApiName(sections);
      threw := !HasExceptionType(w);
      if threw {
        return;
      }
      if |w.fieldNameMapping| == 0 {
        ShowMessagesOnPage(w.messageMapping);
      } else {
        RouteFieldNameMapping(w, allDisplayedFields);
      }
    }

    /** With no field names: one page-level entry per message, same index and message. */
    method ShowMessagesOnPage(messageMapping: Entries<string>)
      modifies this`pageLevelErrorMessageList
      ensures pageLevelErrorMessageList == old(pageLevelErrorMessageList) + MessageEntries(messageMapping)
    {
      var k := 0;
      while k < |messageMapping|
        invariant 0 <= k <= |messageMapping|
        invariant pageLevelErrorMessageList == old(pageLevelErrorMessageList) + MessageEntries(messageMapping[..k])
      {
        assert messageMapping[..k + 1][..k] == messageMapping[..k];
        pageLevelErrorMessageList := pageLevelErrorMessageList
          + [PageLevelError(messageMapping[k].0, messageMapping[k].1)];
        k := k + 1;
      }
      assert messageMapping[..k] == messageMapping;
    }

    /** With field names: the keys routed one after the other, in enumeration order. */
    method RouteFieldNameMapping(w: ExceptionWrapper, allDisplayedFields: map<string, FieldInput>)
      modifies this`pageLevelErrorMessageList, this`erroredFields, this`customValidity
      ensures Errors() == RouteMapped(old(Errors()), w, w.fieldNameMapping, allDisplayedFields)
    {
      var k := 0;
      while k < |w.fieldNameMapping|
        invariant 0 <= k <= |w.fieldNameMapping|
        invariant Errors() == RouteMapped(old(Errors()), w, w.fieldNameMapping[..k], allDisplayedFields)
      {
        assert w.fieldNameMapping[..k + 1][..k] == w.fieldNameMapping[..k];
        var key, fieldList := w.fieldNameMapping[k].0, w.fieldNameMapping[k].1;
        var errorMessage := MessageFor(w, key);
        RouteFields(key, fieldList, errorMessage, allDisplayedFields);
        k := k + 1;
      }
      assert w.fieldNameMapping[..k] == w.fieldNameMapping;
    }

    /** The routing of one key: the forEach over its field list and the page-level entry for its hidden fields. */
    method RouteFields(key: string, fieldList: seq<string>, errorMessage: string,
                       allDisplayedFields: map<string, FieldInput>)
      modifies this`pageLevelErrorMessageList, this`erroredFields, this`customValidity
      ensures Errors() == RouteKey(old(Errors()), key, fieldList, errorMessage, allDisplayedFields)
    {
      var hiddenFieldList: seq<string> := [];
      ghost var shown: seq<FieldInput> := [];
      var j := 0;
      while j < |fieldList|
        invariant 0 <= j <= |fieldList|
        invariant shown == ShownInputs(fieldList[..j], allDisplayedFields)
        invariant hiddenFieldList == HiddenFields(fieldList[..j], allDisplayedFields)
        invariant pageLevelErrorMessageList == old(pageLevelErrorMessageList)
        invariant erroredFields == old(erroredFields) + shown
        invariant customValidity == SetValidity(old(customValidity), shown, errorMessage)
      {
        assert fieldList[..j + 1] == fieldList[..j] + [fieldList[j]];
        var fieldWithError := fieldList[j];
        FieldsSnoc(fieldList[..j], fieldWithError, allDisplayedFields);
        if fieldWithError in allDisplayedFields {
          var fieldInput := allDisplayedFields[fieldWithError];
          SetValiditySnoc(old(customValidity), shown, fieldInput, errorMessage);
          erroredFields := erroredFields + [fieldInput];
          customValidity := customValidity[fieldInput := errorMessage];
          shown := shown + [fieldInput];
        } else {
          hiddenFieldList := hiddenFieldList + [fieldWithError];
        }
        j := j + 1;
      }
      assert fieldList[..j] == fieldList;
      if |hiddenFieldList| > 0 {
        var combinedFields := Join(hiddenFieldList, ", ");
        pageLevelErrorMessageList := pageLevelErrorMessageList
          + [PageLevelError(key, errorMessage + " [" + combinedFields + "]")];
      }
    }
  }
}
