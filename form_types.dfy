/** Values the form renderer reads and writes: JavaScript values and plain
    record objects, parsed JSON objects as ordered entry lists, the backend's
    exception wrapper, form sections, toasts and the form's modes. */
module FormTypes {

  datatype Option<+T> = None | Some(value: T)

  /** A JavaScript value, as far as the renderer inspects one (NaN is not modelled). */
  datatype JsValue = Undefined | Null | Bool(b: bool) | Num(x: real) | Str(s: string)

  /** JavaScript truthiness: undefined, null, false, 0 and '' are falsy. */
  predicate Truthy(v: JsValue) {
    match v
    case Undefined => false
    case Null => false
    case Bool(b) => b
    case Num(x) => x != 0.0
    case Str(s) => s != ""
  }

  /** A plain record object: field API name to value. */
  type Record = map<string, JsValue>

  /** Property access on a record: a missing property reads as undefined. */
  function Get(r: Record, field: string): JsValue {
    if field in r then r[field] else Undefined
  }

  /** The own properties of a parsed JSON object, in for...in enumeration order. */
  type Entries<V> = seq<(string, V)>

  /** A JavaScript object has each property once. */
  predicate DistinctKeys<V>(es: Entries<V>) {
    forall i, j :: 0 <= i < j < |es| ==> es[i].0 != es[j].0
  }

  /** Property access on a parsed object: the value stored under `key`, if any. */
  function Lookup<V>(es: Entries<V>, key: string): Option<V> {
    if es == [] then None
    else if es[0].0 == key then Some(es[0].1)
    else Lookup(es[1..], key)
  }

  /** Lookup finds nothing exactly when no entry has the key, and otherwise
      the value of the first entry that has it. */
  lemma {:induction false} LookupFindsFirst<V>(es: Entries<V>, key: string)
    ensures Lookup(es, key).None? <==> forall i :: 0 <= i < |es| ==> es[i].0 != key
    ensures Lookup(es, key).Some? ==>
              exists i :: 0 <= i < |es| && es[i] == (key, Lookup(es, key).value)
                          && forall j :: 0 <= j < i ==> es[j].0 != key
  {
    if es != [] && es[0].0 != key {
      LookupFindsFirst(es[1..], key);
      if Lookup(es, key).Some? {
        var i :| 0 <= i < |es| - 1 && es[1..][i] == (key, Lookup(es, key).value)
                 && forall j :: 0 <= j < i ==> es[1..][j].0 != key;
        assert es[i + 1] == (key, Lookup(es, key).value);
        assert forall j :: 0 <= j < i + 1 ==> es[j].0 != key by {
          forall j | 0 <= j < i + 1 ensures es[j].0 != key {
            if j > 0 { assert es[j] == es[1..][j - 1]; }
          }
        }
      } else {
        forall i | 0 <= i < |es| ensures es[i].0 != key {
          if i > 0 { assert es[i] == es[1..][i - 1]; }
        }
      }
    }
  }

  /** Array.prototype.join: the elements separated by `sep`. */
  function Join(xs: seq<string>, sep: string): string {
    if xs == [] then ""
    else if |xs| == 1 then xs[0]
    else xs[0] + sep + Join(xs[1..], sep)
  }

  /** One rendered field input; its identity is all the model needs. */
  datatype FieldInput = FieldInput(handle: nat)

  /** One rendered form section: the labels of its fields that fail their
      own validation, and its inputs keyed by field API name. */
  datatype Section = Section(invalidFields: seq<string>, fieldsByApiName: map<string, FieldInput>)

  /** An entry of the page-level error list shown on top of the form. */
  datatype PageLevelError = PageLevelError(index: string, errorMessage: string)

  /** The backend's exception payload, already parsed: the exception type,
      a general message, failing record index to field API names, and
      failing record index to message. */
  datatype ExceptionWrapper = ExceptionWrapper(
    exceptionType: JsValue,
    errorMessage: JsValue,
    fieldNameMapping: Entries<seq<string>>,
    messageMapping: Entries<string>)

  /** The test on the exception type: neither null nor the empty string. */
  predicate HasExceptionType(w: ExceptionWrapper) {
    w.exceptionType != Null && w.exceptionType != Str("")
  }

  /** A toast notification: title, message and variant. */
  datatype Toast = Toast(title: string, message: string, variant: string)

  /** Whether the form creates a new data import row or updates a loaded one. */
  datatype FormMode = Create | Update {
    function Name(): string {
      match this
      case Create => "create"
      case Update => "update"
    }
  }

  /** The custom labels the Save button can show. */
  datatype ActionLabel = LabelGeSave | LabelGeUpdate
}
