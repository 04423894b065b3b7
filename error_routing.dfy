/** How a failed save's exception payload is spread over the form: messages
    for displayed fields go onto those fields' inputs, the rest go into the
    page-level error list; and how clearErrors takes all of it away again. */
module ErrorRouting {
  import opened FormTypes

  /** The error display state: the page-level list, the inputs that carry a
      field-level error, and each input's custom-validity message. */
  datatype ErrorView = ErrorView(
    pageErrors: seq<PageLevelError>,
    errored: seq<FieldInput>,
    validity: map<FieldInput, string>)

  /** An input's custom-validity message; an input never given one has ''. */
  function ValidityOf(validity: map<FieldInput, string>, input: FieldInput): string {
    if input in validity then validity[input] else ""
  }

  /** The message mapping read at `key`; a missing key reads as undefined,
      which both string concatenation and setCustomValidity render as "undefined". */
  function MessageFor(w: ExceptionWrapper, key: string): string {
    match Lookup(w.messageMapping, key)
    case Some(m) => m
    case None => "undefined"
  }

  /** Sets the custom validity of every input in `inputs` to `message`. */
  function SetValidity(validity: map<FieldInput, string>, inputs: seq<FieldInput>, message: string)
    : map<FieldInput, string>
  {
    if inputs == [] then validity
    else
      var n := |inputs| - 1;
      SetValidity(validity, inputs[..n], message)[inputs[n] := message]
  }

  /** After setting a message on a list of inputs, each of them has that
      message and every other input keeps its custom validity. */
  lemma {:induction false} SetValidityEffect(validity: map<FieldInput, string>, inputs: seq<FieldInput>, message: string)
    ensures forall i :: i in inputs ==> ValidityOf(SetValidity(validity, inputs, message), i) == message
    ensures forall i :: i !in inputs ==>
              ValidityOf(SetValidity(validity, inputs, message), i) == ValidityOf(validity, i)
  {
    if inputs != [] {
      var n := |inputs| - 1;
      SetValidityEffect(validity, inputs[..n], message);
      assert inputs == inputs[..n] + [inputs[n]];
    }
  }

  /** Setting one more input's validity is a single map update. */
  lemma SetValiditySnoc(validity: map<FieldInput, string>, inputs: seq<FieldInput>, input: FieldInput, message: string)
    ensures SetValidity(validity, inputs + [input], message) == SetValidity(validity, inputs, message)[input := message]
  {
    assert (inputs + [input])[..|inputs|] == inputs;
  }

  // ---------------------------------------------------------------------------
  // One error key: splitting its field list into displayed and hidden fields

  /** The listed fields that are displayed, in list order. */
  function ShownNames(fields: seq<string>, displayed: map<string, FieldInput>): seq<string> {
    if fields == [] then []
    else
      var last := fields[|fields| - 1];
      ShownNames(fields[..|fields| - 1], displayed) + (if last in displayed then [last] else [])
  }

  /** The listed fields that are not displayed, in list order. */
  function HiddenFields(fields: seq<string>, displayed: map<string, FieldInput>): seq<string> {
    if fields == [] then []
    else
      var last := fields[|fields| - 1];
      HiddenFields(fields[..|fields| - 1], displayed) + (if last in displayed then [] else [last])
  }

  /** The inputs of the listed fields that are displayed, in list order. */
  function ShownInputs(fields: seq<string>, displayed: map<string, FieldInput>): seq<FieldInput> {
    if fields == [] then []
    else
      var last := fields[|fields| - 1];
      ShownInputs(fields[..|fields| - 1], displayed) + (if last in displayed then [displayed[last]] else [])
  }

  /** Looking at one more field extends the shown or the hidden side by that field. */
  lemma FieldsSnoc(fields: seq<string>, f: string, displayed: map<string, FieldInput>)
    ensures ShownInputs(fields + [f], displayed)
            == ShownInputs(fields, displayed) + (if f in displayed then [displayed[f]] else [])
    ensures HiddenFields(fields + [f], displayed)
            == HiddenFields(fields, displayed) + (if f in displayed then [] else [f])
  {
    assert (fields + [f])[..|fields|] == fields;
  }

  /** Splitting a field list into displayed and hidden fields loses and duplicates nothing. */
  lemma {:induction false} FieldSplit(fields: seq<string>, displayed: map<string, FieldInput>)
    ensures multiset(ShownNames(fields, displayed)) + multiset(HiddenFields(fields, displayed))
            == multiset(fields)
    ensures forall f :: f in ShownNames(fields, displayed) ==> f in displayed
    ensures forall f :: f in HiddenFields(fields, displayed) ==> f !in displayed
  {
    if fields != [] {
      var n := |fields| - 1;
      FieldSplit(fields[..n], displayed);
      assert fields == fields[..n] + [fields[n]];
    }
  }

  /** The j-th input taken is the input of the j-th displayed field. */
  lemma {:induction false} ShownInputsAt(fields: seq<string>, displayed: map<string, FieldInput>)
    ensures forall f :: f in ShownNames(fields, displayed) ==> f in displayed
    ensures |ShownInputs(fields, displayed)| == |ShownNames(fields, displayed)|
    ensures forall j :: 0 <= j < |ShownNames(fields, displayed)| ==>
              ShownInputs(fields, displayed)[j] == displayed[ShownNames(fields, displayed)[j]]
  {
    FieldSplit(fields, displayed);
    if fields != [] {
      ShownInputsAt(fields[..|fields| - 1], displayed);
    }
  }

  /** Each listed field goes to exactly one place, as often as it is listed:
      a displayed field has its input taken, a field that is not displayed
      goes to the hidden list, and nothing else goes to the hidden list. */
  lemma {:induction false} EachFieldLandsOnce(fields: seq<string>, displayed: map<string, FieldInput>)
    ensures multiset(ShownNames(fields, displayed)) + multiset(HiddenFields(fields, displayed))
            == multiset(fields)
    ensures forall f :: f in HiddenFields(fields, displayed) <==> f in fields && f !in displayed
    ensures forall f :: f in fields && f in displayed ==> displayed[f] in ShownInputs(fields, displayed)
  {
    FieldSplit(fields, displayed);
    ShownInputsAt(fields, displayed);
    var shown, hidden := ShownNames(fields, displayed), HiddenFields(fields, displayed);
    forall f | f in fields
      ensures f in shown || f in hidden
    {
      assert f in multiset(fields);
    }
    forall f | f in fields && f in displayed
      ensures displayed[f] in ShownInputs(fields, displayed)
    {
      var j :| 0 <= j < |shown| && shown[j] == f;
    }
    forall f | f in hidden
      ensures f in fields
    {
      assert multiset(hidden)[f] > 0;
      assert multiset(fields)[f] > 0;
    }
  }

  /** Every input taken belongs to a displayed field of the list. */
  lemma {:induction false} ShownInputSource(fields: seq<string>, displayed: map<string, FieldInput>, input: FieldInput)
    requires input in ShownInputs(fields, displayed)
    ensures exists f :: f in fields && f in displayed && displayed[f] == input
  {
    var n := |fields| - 1;
    if input !in ShownInputs(fields[..n], displayed) {
      assert fields[n] in fields;
    } else {
      ShownInputSource(fields[..n], displayed, input);
      var f :| f in fields[..n] && f in displayed && displayed[f] == input;
      assert f in fields;
    }
  }

  /** The page-level message for a key whose fields are not all displayed. */
  function HiddenFieldsMessage(message: string, hidden: seq<string>): string {
    message + " [" + Join(hidden, ", ") + "]"
  }

  /** The page-level entries one key adds: one when it has hidden fields, none otherwise. */
  function HiddenEntry(key: string, message: string, hidden: seq<string>): seq<PageLevelError> {
    if |hidden| > 0 then [PageLevelError(key, HiddenFieldsMessage(message, hidden))] else []
  }

  /** The routing of one key of the field-name mapping. */
  function RouteKey(v: ErrorView, key: string, fields: seq<string>, message: string,
                    displayed: map<string, FieldInput>): ErrorView
  {
    var shown := ShownInputs(fields, displayed);
    ErrorView(v.pageErrors + HiddenEntry(key, message, HiddenFields(fields, displayed)),
              v.errored + shown,
              SetValidity(v.validity, shown, message))
  }

  /** Routing one key puts its message on the input of every displayed
      field it lists and on no other input, and records those inputs as
      errored, in list order, after the ones already recorded. */
  lemma {:induction false} RouteKeyFieldEffect(v: ErrorView, key: string, fields: seq<string>, message: string,
                                               displayed: map<string, FieldInput>)
    ensures RouteKey(v, key, fields, message, displayed).errored == v.errored + ShownInputs(fields, displayed)
    ensures forall f :: f in fields && f in displayed ==>
              ValidityOf(RouteKey(v, key, fields, message, displayed).validity, displayed[f]) == message
    ensures forall i :: i !in ShownInputs(fields, displayed) ==>
              ValidityOf(RouteKey(v, key, fields, message, displayed).validity, i) == ValidityOf(v.validity, i)
  {
    EachFieldLandsOnce(fields, displayed);
    SetValidityEffect(v.validity, ShownInputs(fields, displayed), message);
  }

  /** Routing one key adds a page-level entry exactly when some field it
      lists is not displayed; the entry is indexed by the key and its message
      names the hidden fields in list order. */
  lemma {:induction false} RouteKeyPageEffect(v: ErrorView, key: string, fields: seq<string>, message: string,
                                              displayed: map<string, FieldInput>)
    ensures |RouteKey(v, key, fields, message, displayed).pageErrors| > |v.pageErrors|
            <==> exists f :: f in fields && f !in displayed
    ensures RouteKey(v, key, fields, message, displayed).pageErrors
            == v.pageErrors + HiddenEntry(key, message, HiddenFields(fields, displayed))
  {
    EachFieldLandsOnce(fields, displayed);
    var hidden := HiddenFields(fields, displayed);
    if exists f :: f in fields && f !in displayed {
      var f :| f in fields && f !in displayed;
      assert f in hidden;
    }
    if hidden != [] {
      assert hidden[0] in fields && hidden[0] !in displayed;
    }
  }

  // ---------------------------------------------------------------------------
  // The whole field-name mapping, and the message-only case

  /** The keys of the field-name mapping routed in enumeration order. */
  function RouteMapped(v: ErrorView, w: ExceptionWrapper, es: Entries<seq<string>>,
                       displayed: map<string, FieldInput>): ErrorView
  {
    if es == [] then v
    else
      var n := |es| - 1;
      RouteKey(RouteMapped(v, w, es[..n], displayed), es[n].0, es[n].1, MessageFor(w, es[n].0), displayed)
  }

  /** The page-level entries the keys of the field-name mapping add, in key order. */
  function HiddenEntries(w: ExceptionWrapper, es: Entries<seq<string>>,
                         displayed: map<string, FieldInput>): seq<PageLevelError>
  {
    if es == [] then []
    else
      var n := |es| - 1;
      HiddenEntries(w, es[..n], displayed)
        + HiddenEntry(es[n].0, MessageFor(w, es[n].0), HiddenFields(es[n].1, displayed))
  }

  /** The inputs the keys of the field-name mapping mark as errored, in key order. */
  function AllShownInputs(es: Entries<seq<string>>, displayed: map<string, FieldInput>): seq<FieldInput> {
    if es == [] then []
    else
      var n := |es| - 1;
      AllShownInputs(es[..n], displayed) + ShownInputs(es[n].1, displayed)
  }

  /** The page-level entries for the message mapping alone: one per message, same index. */
  function MessageEntries(mm: Entries<string>): (r: seq<PageLevelError>)
    ensures |r| == |mm|
    ensures forall i :: 0 <= i < |mm| ==> r[i] == PageLevelError(mm[i].0, mm[i].1)
  {
    if mm == [] then []
    else
      var n := |mm| - 1;
      MessageEntries(mm[..n]) + [PageLevelError(mm[n].0, mm[n].1)]
  }

  /** The outcome of routing a failed save's payload from state `v`, with
      `displayed` the inputs on the form by field API name. Without an
      exception type the handler throws before changing anything. */
  function RoutedView(v: ErrorView, w: ExceptionWrapper, displayed: map<string, FieldInput>): ErrorView {
    if !HasExceptionType(w) then v
    else if |w.fieldNameMapping| == 0 then v.(pageErrors := v.pageErrors + MessageEntries(w.messageMapping))
    else RouteMapped(v, w, w.fieldNameMapping, displayed)
  }

  /** The state clearErrors leaves: no page-level entries, no errored inputs,
      and every previously errored input's custom validity back to ''. */
  function ClearedView(v: ErrorView): ErrorView {
    ErrorView([], [], SetValidity(v.validity, v.errored, ""))
  }

  lemma {:induction false} RouteMappedPageErrors(v: ErrorView, w: ExceptionWrapper, es: Entries<seq<string>>,
                                                 displayed: map<string, FieldInput>)
    ensures RouteMapped(v, w, es, displayed).pageErrors == v.pageErrors + HiddenEntries(w, es, displayed)
  {
    if es != [] {
      var n := |es| - 1;
      RouteMappedPageErrors(v, w, es[..n], displayed);
    }
  }

  lemma {:induction false} RouteMappedErrored(v: ErrorView, w: ExceptionWrapper, es: Entries<seq<string>>,
                                              displayed: map<string, FieldInput>)
    ensures RouteMapped(v, w, es, displayed).errored == v.errored + AllShownInputs(es, displayed)
  {
    if es != [] {
      var n := |es| - 1;
      RouteMappedErrored(v, w, es[..n], displayed);
    }
  }

  /** An input is marked by the field-name mapping exactly when some key lists a displayed field with that input. */
  lemma {:induction false} AllShownInputsMembers(es: Entries<seq<string>>, displayed: map<string, FieldInput>,
                                                 input: FieldInput)
    ensures input in AllShownInputs(es, displayed) <==>
              exists i :: 0 <= i < |es| && input in ShownInputs(es[i].1, displayed)
  {
    if es != [] {
      var n := |es| - 1;
      AllShownInputsMembers(es[..n], displayed, input);
      assert forall i :: 0 <= i < n ==> es[..n][i] == es[i];
    }
  }

  /** `p` is the page-level entry that key entry `e` adds for its hidden fields. */
  predicate IsHiddenEntryOf(w: ExceptionWrapper, e: (string, seq<string>), displayed: map<string, FieldInput>,
                            p: PageLevelError)
  {
    HiddenFields(e.1, displayed) != []
    && p == PageLevelError(e.0, HiddenFieldsMessage(MessageFor(w, e.0), HiddenFields(e.1, displayed)))
  }

  /** Every page-level entry of the field-name mapping is the hidden-fields
      entry of some key that has hidden fields. */
  lemma {:induction false} HiddenEntrySource(w: ExceptionWrapper, es: Entries<seq<string>>,
                                             displayed: map<string, FieldInput>, p: PageLevelError)
    requires p in HiddenEntries(w, es, displayed)
    ensures exists i :: 0 <= i < |es| && IsHiddenEntryOf(w, es[i], displayed, p)
  {
    var n := |es| - 1;
    var prefix := es[..n];
    var last := HiddenEntry(es[n].0, MessageFor(w, es[n].0), HiddenFields(es[n].1, displayed));
    assert HiddenEntries(w, es, displayed) == HiddenEntries(w, prefix, displayed) + last;
    if p in HiddenEntries(w, prefix, displayed) {
      HiddenEntrySource(w, prefix, displayed, p);
      var i :| 0 <= i < n && IsHiddenEntryOf(w, prefix[i], displayed, p);
      assert prefix[i] == es[i];
    } else {
      assert p in last;
      assert IsHiddenEntryOf(w, es[n], displayed, p);
    }
  }

  /** The hidden-fields entry of every key that has hidden fields is among
      the page-level entries of the field-name mapping. */
  lemma {:induction false} HiddenEntryPresent(w: ExceptionWrapper, es: Entries<seq<string>>,
                                              displayed: map<string, FieldInput>, i: nat, p: PageLevelError)
    requires i < |es| && IsHiddenEntryOf(w, es[i], displayed, p)
    ensures p in HiddenEntries(w, es, displayed)
  {
    var n := |es| - 1;
    var prefix := es[..n];
    var last := HiddenEntry(es[n].0, MessageFor(w, es[n].0), HiddenFields(es[n].1, displayed));
    assert HiddenEntries(w, es, displayed) == HiddenEntries(w, prefix, displayed) + last;
    if i < n {
      assert prefix[i] == es[i];
      HiddenEntryPresent(w, prefix, displayed, i, p);
    } else {
      assert last == [p];
    }
  }

  /** The page-level entries of the field-name mapping are exactly the
      hidden-fields entries of the keys that have hidden fields. */
  lemma {:induction false} HiddenEntriesMembers(w: ExceptionWrapper, es: Entries<seq<string>>,
                                                displayed: map<string, FieldInput>, p: PageLevelError)
    ensures p in HiddenEntries(w, es, displayed) <==>
              exists i :: 0 <= i < |es| && IsHiddenEntryOf(w, es[i], displayed, p)
  {
    if p in HiddenEntries(w, es, displayed) {
      HiddenEntrySource(w, es, displayed, p);
    }
    if exists i :: 0 <= i < |es| && IsHiddenEntryOf(w, es[i], displayed, p) {
      var i :| 0 <= i < |es| && IsHiddenEntryOf(w, es[i], displayed, p);
      HiddenEntryPresent(w, es, displayed, i, p);
    }
  }

  /** For a key of the field-name mapping there is a page-level entry with
      that key as index exactly when some field it lists is not displayed,
      and that entry's message is the key's message followed by the hidden
      fields, in list order, joined by ', ' in brackets. */
  lemma {:induction false} PageEntryIffHidden(w: ExceptionWrapper, es: Entries<seq<string>>,
                           displayed: map<string, FieldInput>, i: nat)
    requires DistinctKeys(es)
    requires i < |es|
    ensures (exists p :: p in HiddenEntries(w, es, displayed) && p.index == es[i].0) <==>
              exists f :: f in es[i].1 && f !in displayed
    ensures forall p :: p in HiddenEntries(w, es, displayed) && p.index == es[i].0 ==>
              p.errorMessage == MessageFor(w, es[i].0) + " [" + Join(HiddenFields(es[i].1, displayed), ", ") + "]"
  {
    EachFieldLandsOnce(es[i].1, displayed);
    var hidden := HiddenFields(es[i].1, displayed);
    var entry := PageLevelError(es[i].0, HiddenFieldsMessage(MessageFor(w, es[i].0), hidden));
    if exists f :: f in es[i].1 && f !in displayed {
      var f :| f in es[i].1 && f !in displayed;
      assert f in hidden;
      assert IsHiddenEntryOf(w, es[i], displayed, entry);
      HiddenEntriesMembers(w, es, displayed, entry);
      assert entry in HiddenEntries(w, es, displayed) && entry.index == es[i].0;
    }
    forall p | p in HiddenEntries(w, es, displayed) && p.index == es[i].0
      ensures hidden != [] && p == entry
    {
      HiddenEntriesMembers(w, es, displayed, p);
      var k :| 0 <= k < |es| && IsHiddenEntryOf(w, es[k], displayed, p);
      assert k == i;
    }
    if exists p :: p in HiddenEntries(w, es, displayed) && p.index == es[i].0 {
      assert hidden != [];
      assert hidden[0] in es[i].1 && hidden[0] !in displayed;
    }
  }

  /** After the field-name mapping is routed, an input that no key lists
      keeps its custom validity. */
  lemma {:induction false} ValidityUntouched(v: ErrorView, w: ExceptionWrapper, es: Entries<seq<string>>,
                                             displayed: map<string, FieldInput>, input: FieldInput)
    requires forall i :: 0 <= i < |es| ==> input !in ShownInputs(es[i].1, displayed)
    ensures ValidityOf(RouteMapped(v, w, es, displayed).validity, input) == ValidityOf(v.validity, input)
  {
    if es != [] {
      var n := |es| - 1;
      assert forall i :: 0 <= i < n ==> es[..n][i] == es[i];
      ValidityUntouched(v, w, es[..n], displayed, input);
      RouteKeyFieldEffect(RouteMapped(v, w, es[..n], displayed), es[n].0, es[n].1, MessageFor(w, es[n].0), displayed);
    }
  }

  /** After the field-name mapping is routed, an input listed by some key
      carries the message of the last key that lists it. */
  lemma {:induction false} ValidityLastKeyWins(v: ErrorView, w: ExceptionWrapper, es: Entries<seq<string>>,
                                               displayed: map<string, FieldInput>, input: FieldInput, i: nat)
    requires i < |es| && input in ShownInputs(es[i].1, displayed)
    requires forall j :: i < j < |es| ==> input !in ShownInputs(es[j].1, displayed)
    ensures ValidityOf(RouteMapped(v, w, es, displayed).validity, input) == MessageFor(w, es[i].0)
  {
    var n := |es| - 1;
    var before := RouteMapped(v, w, es[..n], displayed);
    RouteKeyFieldEffect(before, es[n].0, es[n].1, MessageFor(w, es[n].0), displayed);
    assert RouteMapped(v, w, es, displayed)
        == RouteKey(before, es[n].0, es[n].1, MessageFor(w, es[n].0), displayed);
    if i < n {
      var prefix := es[..n];
      assert prefix[i] == es[i];
      assert forall j :: i < j < n ==> input !in ShownInputs(prefix[j].1, displayed) by {
        forall j | i < j < n ensures input !in ShownInputs(prefix[j].1, displayed) {
          assert prefix[j] == es[j];
        }
      }
      ValidityLastKeyWins(v, w, prefix, displayed, input, i);
      assert input !in ShownInputs(es[n].1, displayed);
    } else {
      SetValidityEffect(before.validity, ShownInputs(es[n].1, displayed), MessageFor(w, es[n].0));
    }
  }

  /** Routing only appends to the page-level list and to the errored inputs,
      keeping what was there and its order; without an exception type it
      changes nothing; with an empty field-name mapping it adds one entry per
      message, same index and text in enumeration order, and touches no input. */
  lemma {:induction false} RoutingAppendsOnly(v: ErrorView, w: ExceptionWrapper, displayed: map<string, FieldInput>)
    ensures var r := RoutedView(v, w, displayed);
            && |v.pageErrors| <= |r.pageErrors| && r.pageErrors[..|v.pageErrors|] == v.pageErrors
            && |v.errored| <= |r.errored| && r.errored[..|v.errored|] == v.errored
    ensures !HasExceptionType(w) ==> RoutedView(v, w, displayed) == v
    ensures HasExceptionType(w) && |w.fieldNameMapping| == 0 ==>
              var r := RoutedView(v, w, displayed);
              var mm := w.messageMapping;
              && |r.pageErrors| == |v.pageErrors| + |mm|
              && (forall i :: 0 <= i < |mm| ==>
                    r.pageErrors[|v.pageErrors| + i] == PageLevelError(mm[i].0, mm[i].1))
              && r.errored == v.errored && r.validity == v.validity
    ensures HasExceptionType(w) && |w.fieldNameMapping| > 0 ==>
              var r := RoutedView(v, w, displayed);
              && r.pageErrors == v.pageErrors + HiddenEntries(w, w.fieldNameMapping, displayed)
              && r.errored == v.errored + AllShownInputs(w.fieldNameMapping, displayed)
  {
    var r := RoutedView(v, w, displayed);
    if HasExceptionType(w) {
      if |w.fieldNameMapping| == 0 {
        assert r.pageErrors == v.pageErrors + MessageEntries(w.messageMapping);
      } else {
        RouteMappedPageErrors(v, w, w.fieldNameMapping, displayed);
        RouteMappedErrored(v, w, w.fieldNameMapping, displayed);
      }
      assert r.pageErrors[..|v.pageErrors|] == v.pageErrors;
      assert r.errored[..|v.errored|] == v.errored;
    }
  }

  /** Every input whose custom validity routing changes is recorded as errored, so clearErrors can undo it. */
  lemma {:induction false} RoutingRecordsTouchedInputs(v: ErrorView, w: ExceptionWrapper, displayed: map<string, FieldInput>,
                                    input: FieldInput)
    ensures ValidityOf(RoutedView(v, w, displayed).validity, input) != ValidityOf(v.validity, input) ==>
              input in RoutedView(v, w, displayed).errored
  {
    if HasExceptionType(w) && |w.fieldNameMapping| > 0 {
      var es := w.fieldNameMapping;
      AllShownInputsMembers(es, displayed, input);
      if input !in AllShownInputs(es, displayed) {
        ValidityUntouched(v, w, es, displayed, input);
      }
      RouteMappedErrored(v, w, es, displayed);
    }
  }

  /** clearErrors leaves no page-level entry and no errored input, resets
      every errored input to '', and leaves all other inputs as they were. */
  lemma {:induction false} ClearedViewEffect(v: ErrorView)
    ensures ClearedView(v).pageErrors == [] && ClearedView(v).errored == []
    ensures forall i :: i in v.errored ==> ValidityOf(ClearedView(v).validity, i) == ""
    ensures forall i :: i !in v.errored ==> ValidityOf(ClearedView(v).validity, i) == ValidityOf(v.validity, i)
  {
    SetValidityEffect(v.validity, v.errored, "");
  }

  /** If every input was valid before a failed save, clearing the routed
      errors leaves every input valid again, with nothing on the page. */
  lemma {:induction false} ClearUndoesRouting(v: ErrorView, w: ExceptionWrapper, displayed: map<string, FieldInput>)
    requires forall i :: ValidityOf(v.validity, i) == ""
    ensures var c := ClearedView(RoutedView(v, w, displayed));
            c.pageErrors == [] && c.errored == [] && forall i :: ValidityOf(c.validity, i) == ""
  {
    var r := RoutedView(v, w, displayed);
    ClearedViewEffect(r);
    forall i ensures ValidityOf(ClearedView(r).validity, i) == "" {
      RoutingRecordsTouchedInputs(v, w, displayed, i);
    }
  }

  /** Every input that carries a custom-validity message is recorded as
      errored, so that clearErrors reaches it. */
  ghost predicate ErroredCoversInvalid(v: ErrorView) {
    forall i :: ValidityOf(v.validity, i) != "" ==> i in v.errored
  }

  /** Clearing a view whose errored inputs cover every message leaves every
      input valid, and the cleared view trivially keeps the invariant. */
  lemma {:induction false} ClearingLeavesAllValid(v: ErrorView)
    requires ErroredCoversInvalid(v)
    ensures forall i :: ValidityOf(ClearedView(v).validity, i) == ""
    ensures ErroredCoversInvalid(ClearedView(v))
  {
    ClearedViewEffect(v);
  }

  /** Routing a failed save's payload keeps every input with a message among the errored inputs. */
  lemma {:induction false} RoutingKeepsErroredCovered(v: ErrorView, w: ExceptionWrapper,
                                                      displayed: map<string, FieldInput>)
    requires ErroredCoversInvalid(v)
    ensures ErroredCoversInvalid(RoutedView(v, w, displayed))
  {
    var r := RoutedView(v, w, displayed);
    RoutingAppendsOnly(v, w, displayed);
    forall i | ValidityOf(r.validity, i) != "" ensures i in r.errored {
      RoutingRecordsTouchedInputs(v, w, displayed, i);
      if ValidityOf(r.validity, i) == ValidityOf(v.validity, i) {
        assert i in v.errored;
        assert i in r.errored[..|v.errored|];
      }
    }
  }

  /** handleSave clears the errors before saving, so after a failed save the
      page-level list and the errored inputs hold exactly what this payload
      produced: nothing when it has no exception type, one entry per message
      when no field is named, and the hidden-field entries otherwise. */
  lemma {:induction false} FailedSaveShowsOnlyThisPayload(v: ErrorView, w: ExceptionWrapper,
                                                          displayed: map<string, FieldInput>)
    ensures var r := RoutedView(ClearedView(v), w, displayed);
            && r.pageErrors == (if !HasExceptionType(w) then []
                                else if |w.fieldNameMapping| == 0 then MessageEntries(w.messageMapping)
                                else HiddenEntries(w, w.fieldNameMapping, displayed))
            && r.errored == (if HasExceptionType(w) && |w.fieldNameMapping| > 0
                             then AllShownInputs(w.fieldNameMapping, displayed) else [])
  {
    RoutingAppendsOnly(ClearedView(v), w, displayed);
  }
}
