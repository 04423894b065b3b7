# Gift entry form renderer: error routing and form state

A Dafny model of the state logic of `GeFormRenderer`, the Lightning web
component that renders a gift entry form and saves a data import record:

- **Error routing after a failed save.** The backend's exception payload has
  two maps keyed by failing record index: the field API names that failed,
  and the message. For each key, every listed field shown on the form gets
  the message as its input's custom validity, and that input is recorded as
  errored. Listed fields that are not shown are gathered, in list order. If
  any were gathered, one page-level entry `message [f1, f2]` is added under
  that key. When the field map is empty, each message becomes a page-level
  entry unchanged. When the payload has no exception type, the handler reads
  and assigns a bare `pageLevelErrorMessageList` (line 236). In module code
  that identifier is undeclared, so the handler throws a ReferenceError and
  adds nothing. The model keeps that behaviour as the `threw` /
  `ReferenceErrorThrown` outcome.
- **clearErrors**: empties the page-level list, resets every errored input's
  custom validity to `''` and forgets the errored inputs.
- **The create/update mode** given by the loaded row (`load`, `reset`, `mode`,
  the Save button's label, and whether updating is disabled).
- **The save flow** (`handleSave`): clear, validate the sections, show the
  spinner, then either hand the completed record to the parent (batch mode)
  or save remotely. On success the form navigates; on failure it routes the
  errors. As written, the Save button is re-enabled only in batch mode.

Parsed JSON objects that the source walks with `for…in` are modelled as
sequences of (key, value) pairs in enumeration order. A field input is an
opaque handle. The custom validity of the inputs is a map held by the
renderer. A message key missing from the message map reads as `undefined`,
which both string concatenation and `setCustomValidity` render as
`"undefined"`.

Files: `form_types.dfy` (values, JavaScript truthiness, `Join`, `Lookup`),
`form_sections.dfy` (what the sections report), `error_routing.dfy` (the
routing and clearing specification and its lemmas), `submitted_record.dfy`
(the record `getData` completes), `ge_form_renderer.dfy` (the `GeFormRenderer`
class, whose methods are proved against those specifications).

## Model

| member | source | states |
|---|---|---|
| FormTypes.LookupFindsFirst | src/lwc/geFormRenderer/geFormRenderer.js:204-207 | reading a parsed object at a key finds the value of the first entry with that key, and nothing exactly when no entry has it |
| FormSections.MergedFieldsLastWins | src/lwc/geFormRenderer/geFormRenderer.js:275-284 | a name is among the displayed fields exactly when some section has it, and then it maps to the input of the last section that has it (Object.assign order) |
| FormSections.AllInvalidFieldsEmpty | src/lwc/geFormRenderer/geFormRenderer.js:245-257 | the concatenated invalid fields are empty exactly when every section reports none |
| FormSections.AllInvalidFieldsMembers | src/lwc/geFormRenderer/geFormRenderer.js:246-250 | a field is in the concatenation exactly when some section reports it |
| ErrorRouting.SetValidityEffect | src/lwc/geFormRenderer/geFormRenderer.js:212-218 | after setting a message on a list of inputs, each of them has that message and every other input keeps its custom validity |
| ErrorRouting.FieldSplit | src/lwc/geFormRenderer/geFormRenderer.js:212-224 | the displayed and the hidden fields of a key together are the listed fields, as a multiset; displayed ones are on the form, hidden ones are not |
| ErrorRouting.ShownInputsAt | src/lwc/geFormRenderer/geFormRenderer.js:214-216 | the j-th errored input of a key is the input of the j-th displayed field it lists |
| ErrorRouting.EachFieldLandsOnce | src/lwc/geFormRenderer/geFormRenderer.js:201-224 | each listed field lands in exactly one place, as often as it is listed: its input is marked when it is displayed, otherwise it is in the hidden list; the hidden list holds exactly the listed fields not displayed |
| ErrorRouting.ShownInputSource | src/lwc/geFormRenderer/geFormRenderer.js:214-216 | every input a key marks belongs to a displayed field that key lists |
| ErrorRouting.RouteKeyFieldEffect | src/lwc/geFormRenderer/geFormRenderer.js:212-224 | routing one key appends the inputs of its displayed fields to the errored inputs, gives each of them the key's message, and leaves every other input's validity alone |
| ErrorRouting.RouteKeyPageEffect | src/lwc/geFormRenderer/geFormRenderer.js:226-232 | routing one key adds a page-level entry exactly when some listed field is not displayed, and that entry is `message [hidden fields joined by ', ']` under the key |
| ErrorRouting.MessageEntries | src/lwc/geFormRenderer/geFormRenderer.js:195-197 | without field names, each message entry gives one page-level entry with the same index and message, in enumeration order |
| ErrorRouting.RouteMappedPageErrors | src/lwc/geFormRenderer/geFormRenderer.js:201-233 | routing the field-name mapping appends the hidden-field entries of its keys, in key order, to the existing list |
| ErrorRouting.RouteMappedErrored | src/lwc/geFormRenderer/geFormRenderer.js:201-224 | routing the field-name mapping appends the marked inputs of its keys, in key order, to the existing errored inputs |
| ErrorRouting.AllShownInputsMembers | src/lwc/geFormRenderer/geFormRenderer.js:201-224 | an input is marked exactly when some key lists a displayed field with that input |
| ErrorRouting.HiddenEntrySource | src/lwc/geFormRenderer/geFormRenderer.js:226-232 | every added page-level entry is the hidden-field entry of some key that has hidden fields |
| ErrorRouting.HiddenEntryPresent | src/lwc/geFormRenderer/geFormRenderer.js:226-232 | the hidden-field entry of every key that has hidden fields is among the added page-level entries |
| ErrorRouting.HiddenEntriesMembers | src/lwc/geFormRenderer/geFormRenderer.js:226-232 | the added page-level entries are exactly the hidden-field entries of the keys that have hidden fields |
| ErrorRouting.PageEntryIffHidden | src/lwc/geFormRenderer/geFormRenderer.js:226-232 | for each key there is a page-level entry with that index if and only if it lists a field that is not displayed, and its message is the key's message followed by the hidden fields in list order |
| ErrorRouting.ValidityUntouched | src/lwc/geFormRenderer/geFormRenderer.js:212-218 | an input that no key marks keeps its custom validity |
| ErrorRouting.ValidityLastKeyWins | src/lwc/geFormRenderer/geFormRenderer.js:201-218 | an input marked by several keys ends with the message of the last key that marks it |
| ErrorRouting.RoutingAppendsOnly | src/lwc/geFormRenderer/geFormRenderer.js:189-237 | routing keeps the existing page-level entries and errored inputs and their order and only appends; without an exception type it changes nothing; with no field names it adds one entry per message and touches no input |
| ErrorRouting.RoutingRecordsTouchedInputs | src/lwc/geFormRenderer/geFormRenderer.js:212-218 | every input whose custom validity routing changes is recorded among the errored inputs |
| ErrorRouting.ClearedViewEffect | src/lwc/geFormRenderer/geFormRenderer.js:286-299 | after clearing there are no page-level entries and no errored inputs, every previously errored input has validity '' and every other input keeps its own |
| ErrorRouting.ClearingLeavesAllValid | src/lwc/geFormRenderer/geFormRenderer.js:286-299 | when every input with a message is recorded as errored, clearing leaves every input with validity '' |
| ErrorRouting.RoutingKeepsErroredCovered | src/lwc/geFormRenderer/geFormRenderer.js:201-224 | routing a failed save keeps every input that carries a message among the errored inputs |
| ErrorRouting.ClearUndoesRouting | src/lwc/geFormRenderer/geFormRenderer.js:286-299 | if every input was valid before a failed save, clearing the routed errors makes every input valid again with nothing on the page |
| ErrorRouting.FailedSaveShowsOnlyThisPayload | src/lwc/geFormRenderer/geFormRenderer.js:137-237 | since handleSave clears first, after a failed save the page-level list and errored inputs hold exactly what this payload produced |
| GeFormRendererModel.GeFormRenderer.constructor | src/lwc/geFormRenderer/geFormRenderer.js:34-41 | a new renderer has no spinner, no page-level error, no errored input, no loaded row, and so it satisfies the invariant that every input with a message is recorded as errored |
| GeFormRendererModel.GeFormRenderer.ToggleSpinner | src/lwc/geFormRenderer/geFormRenderer.js:270-273 | the spinner flag is negated and nothing else changes |
| GeFormRendererModel.GeFormRenderer.ClearErrors | src/lwc/geFormRenderer/geFormRenderer.js:286-299 | the new error state is the cleared one: lists empty, previously errored inputs reset to '', others and hasPageLevelError unchanged; from a state that keeps the invariant, every input ends with validity '' |
| GeFormRendererModel.GeFormRenderer.DisplayedFieldsMappedByApiName | src/lwc/geFormRenderer/geFormRenderer.js:275-284 | the merged map of all sections' inputs; a name is in it exactly when some section displays it |
| GeFormRendererModel.GeFormRenderer.IsFormValid | src/lwc/geFormRenderer/geFormRenderer.js:245-258 | valid exactly when no section reports an invalid field; a toast listing all invalid fields is shown exactly when not valid |
| GeFormRendererModel.GeFormRenderer.Load | src/lwc/geFormRenderer/geFormRenderer.js:301-309 | the loaded row is stored and the mode is update exactly when a row was given |
| GeFormRendererModel.GeFormRenderer.Reset | src/lwc/geFormRenderer/geFormRenderer.js:311-319 | the row is dropped: create mode, the save label, update not disabled |
| GeFormRendererModel.GeFormRenderer.Mode | src/lwc/geFormRenderer/geFormRenderer.js:321-323 | update exactly when a row is loaded, create otherwise, with the names 'update' and 'create' of lines 17-20 |
| GeFormRendererModel.GeFormRenderer.SaveActionLabel | src/lwc/geFormRenderer/geFormRenderer.js:321-334 | the update label exactly when a row is loaded, the save label otherwise |
| GeFormRendererModel.GeFormRenderer.IsUpdateActionDisabled | src/lwc/geFormRenderer/geFormRenderer.js:336-339 | disabled exactly when a row is loaded and its status is the string 'Imported'; disabled implies update mode |
| GeFormRendererModel.GeFormRenderer.GetData | src/lwc/geFormRenderer/geFormRenderer.js:341-354 | the batch lookup is set to the batch id only when it is falsy, the Id is the loaded row's only in update mode, and every other field is as built |
| GeFormRendererModel.GeFormRenderer.HandleSaveFailure | src/lwc/geFormRenderer/geFormRenderer.js:180-237 | the spinner is toggled, hasPageLevelError becomes true, the error state becomes the routed one, and it throws exactly when there is no exception type |
| GeFormRendererModel.GeFormRenderer.ShowMessagesOnPage | src/lwc/geFormRenderer/geFormRenderer.js:195-197 | the loop over the message map appends one page-level entry per message, same index and message, in enumeration order |
| GeFormRendererModel.GeFormRenderer.RouteFieldNameMapping | src/lwc/geFormRenderer/geFormRenderer.js:201-233 | the loop over the field-name map routes its keys one after the other, in enumeration order |
| GeFormRendererModel.GeFormRenderer.RouteFields | src/lwc/geFormRenderer/geFormRenderer.js:201-233 | the loop over one key's fields and its page-level entry produce the routing of that key |
| GeFormRendererModel.GeFormRenderer.SaveValidForm | src/lwc/geFormRenderer/geFormRenderer.js:145-242 | batch mode submits the completed record, re-enables the button, hides the spinner and resets on success; otherwise a remote success navigates with the spinner on, and a remote failure routes the errors and leaves the button disabled |
| GeFormRendererModel.GeFormRenderer.HandleSave | src/lwc/geFormRenderer/geFormRenderer.js:136-243 | per outcome: an invalid form only clears and shows the toast; batch mode submits the completed record and re-enables the button; a remote success navigates; a remote failure leaves exactly the routed errors, hasPageLevelError set and the button disabled; in every outcome the invariant that every input with a message is recorded as errored is kept |

## Left out

- Record wires, `connectedCallback`, `loadTemplate` and `initializeForm` (lines 43-130): platform record fetching and template loading. The fields they set (`ready`, `name`, `description`, `version`, `sections`, `formTemplateId`, `fieldNames`) are not part of this model.
- The remote save, `getFormTemplate` and `getDataImportRecord` of `GeFormService` are calls into code this model does not contain. The save outcome is the `result` parameter of `HandleSave`; the record built from the sections is the `built` parameter.
- The sections are child components: their invalid fields and inputs by API name are given as values. The `section.load` and `section.reset` calls in `load` and `reset` are not modelled.
- Navigation, `showToast`, `dispatchEvent` and `window.scrollTo` are I/O. The navigation target, the toast and the submitted record come back as the `SaveEffect` result; scrolling is not modelled.
- The promises and callbacks are not modelled as asynchronous. Their outcome is applied right after the save starts, so interleavings such as two saves in flight are not modelled.
- `JSON.parse(error.body.message)` (line 186): the model starts from the parsed payload; a body that does not parse is not modelled.
- A null `DMLErrorFieldNameMapping` or a null field list makes the JavaScript throw a TypeError, and so does a null message map when the field-name mapping is not empty (line 207 reads it at a key). With an empty field-name mapping, the `for…in` at line 195 over a null message map runs zero times and behaves like an empty map, which the model covers. The payload types here cannot hold null.
- `in` on a plain object also sees inherited names such as `toString`; field API names are assumed not to be such names.
- NaN is not among the modelled JavaScript values, so its falsiness is not modelled.
- GeFormRendererModel.GeFormRenderer.IsUpdateActionDisabled: returns a boolean. With no row loaded, the source returns the row itself (`undefined`), which is only ever used for its falsiness.
- The field API names are used without a namespace prefix, and the custom labels are symbolic (`LabelGeSave`, `LabelGeUpdate`) because their text is platform data.
- The Robot Framework page objects under `robot/` drive a browser in UI tests and hold no state logic.
