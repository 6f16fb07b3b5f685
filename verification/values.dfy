/**
 * Values shared by every part of the model: the JavaScript values that flow
 * through the data layer (JSON data plus `undefined`), entity records, abort
 * signals and the errors that reject a caller.
 */
module Values {

  datatype Option<+T> = None | Some(value: T)

  datatype Result<+T> = Ok(value: T) | Err(error: Error)

  /**
   * A JavaScript value as the data layer sees it. Numbers are integers here;
   * floating point is not modelled.
   */
  datatype Value =
    | Undefined
    | Null
    | Bool(b: bool)
    | Num(n: int)
    | Str(s: string)
    | Arr(items: seq<Value>)
    | Obj(fields: map<string, Value>)

  /** An entity record: a plain object, field name to field value. */
  type Record = map<string, Value>

  /**
   * An abort signal. Callers bring their own; a chunk of batched fetches gets
   * a fresh combined signal of its own, numbered by the chunk.
   */
  datatype Signal = CallerSignal(n: nat) | ChunkSignal(chunk: nat)

  /** The reasons a pending fetch or a store call is rejected with. */
  datatype Error =
    | Aborted                                  // 'Operation was aborted'
    | NotFound(typeName: string, id: Value)    // 'Expected <type> with ID <id> to be present'
    | Mismatch(typeName: string, id: Value)    // 'Expected single <type> with ID <id>'
    | TypeError                                // a property read on null or undefined, a non-array mapped over
    | Failure(cause: Value)                    // whatever the transport rejected with

  /** JavaScript truthiness (`if (v)`, `v || w`, `!v`). */
  predicate Truthy(v: Value) {
    match v
    case Undefined => false
    case Null => false
    case Bool(b) => b
    case Num(n) => n != 0
    case Str(s) => s != ""
    case Arr(_) => true
    case Obj(_) => true
  }

  /** `v?.[key]`: the field of an object, `undefined` when there is none. */
  function Prop(v: Value, key: string): (r: Value)
    ensures !v.Obj? ==> r == Undefined
    ensures v.Obj? && key !in v.fields ==> r == Undefined
  {
    if v.Obj? && key in v.fields then v.fields[key] else Undefined
  }

  /** `entity.id` of a record: `undefined` when the record has no id field. */
  function IdOf(r: Record): Value {
    if "id" in r then r["id"] else Undefined
  }

  /** `a || b` on two values. */
  function Or(a: Value, b: Value): (r: Value)
    ensures Truthy(r) <==> Truthy(a) || Truthy(b)
  {
    if Truthy(a) then a else b
  }

  /** No entry of a fetched list is `null` (`entity.id` on a `null` entry throws). */
  predicate AllPresent(entities: seq<Option<Record>>) {
    forall i :: 0 <= i < |entities| ==> entities[i].Some?
  }

  /** The records of a list with no `null` entry. */
  function Present(entities: seq<Option<Record>>): seq<Record>
    requires AllPresent(entities)
  {
    seq(|entities|, i requires 0 <= i < |entities| => entities[i].value)
  }

  /** No value occurs twice. */
  predicate Distinct<T(==)>(s: seq<T>) {
    forall i, j :: 0 <= i < j < |s| ==> s[i] != s[j]
  }

  function Elems<T>(s: seq<T>): set<T> {
    set x | x in s
  }

  /** Dropping the last element of a sequence without repeats leaves one without repeats, and without it. */
  lemma DistinctInit<T>(s: seq<T>)
    requires Distinct(s) && s != []
    ensures Distinct(s[..|s| - 1]) && s[|s| - 1] !in s[..|s| - 1]
    ensures forall x :: x in s <==> x in s[..|s| - 1] || x == s[|s| - 1]
  {
    var init := s[..|s| - 1];
    assert s == init + [s[|s| - 1]];
    forall i | 0 <= i < |init| ensures init[i] != s[|s| - 1] {
      assert init[i] == s[i];
    }
  }

  /** Appending an element not yet present keeps a sequence without repeats. */
  lemma DistinctSnoc<T>(s: seq<T>, x: T)
    requires Distinct(s) && x !in s
    ensures Distinct(s + [x])
  {
  }

  lemma ElemsSnoc<T>(s: seq<T>, x: T)
    ensures Elems(s + [x]) == Elems(s) + {x}
  {
  }
}
