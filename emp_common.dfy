/**
 * The employee form's blank record `initEmp` and `sanitizeNullToEmpty`, which
 * rebuilds a record from the server on exactly the keys of `initEmp`,
 * turning null and undefined into empty text.
 */
module EmpCommon {

  /** The JavaScript values a record field can hold. */
  datatype JsValue = Undefined | Null | Str(s: string) | Num(n: int) | Bool(b: bool)

  /** A plain JavaScript object: reading a key it lacks gives `undefined`. */
  type JsObject = map<string, JsValue>

  function Get(obj: JsObject, key: string): JsValue {
    if key in obj then obj[key] else Undefined
  }

  predicate IsNullish(v: JsValue) {
    v == Null || v == Undefined
  }

  /** The keys of `initEmp` in declaration order, which is the order `for...in` visits them. */
  const EmpKeys: seq<string> := [
    "employee_id", "first_name", "last_name", "email", "phone_number", "hire_date",
    "salary", "commission_pct", "manager_id", "department_id", "photos", "job_id"
  ]

  /** `initEmp`: every key of the form starts out as empty text. */
  const InitEmp: JsObject := map k | k in EmpKeys :: Str("")

  /** The first `i` keys of `initEmp`, the ones `for...in` has visited after `i` steps. */
  ghost function KeysBefore(i: nat): set<string>
    requires i <= |EmpKeys|
  {
    set j | 0 <= j < i :: EmpKeys[j]
  }

  lemma KeysBeforeStep(i: nat)
    requires i < |EmpKeys|
    ensures KeysBefore(i + 1) == KeysBefore(i) + {EmpKeys[i]}
  {
  }

  lemma InitEmpShape()
    ensures InitEmp.Keys == KeysBefore(|EmpKeys|)
    ensures forall k :: k in InitEmp ==> InitEmp[k] == Str("")
  {
    var idx := KeysBefore(|EmpKeys|);
    forall k | k in InitEmp ensures k in idx {
      var i :| 0 <= i < |EmpKeys| && EmpKeys[i] == k;
    }
  }

  /** The value one key of the result receives: a default for a nullish input, the input otherwise. */
  function SanitizedValue(obj: JsObject, key: string): JsValue
    requires key in InitEmp
  {
    if IsNullish(Get(obj, key)) then (if InitEmp[key].Num? then Num(0) else Str(""))
    else Get(obj, key)
  }

  /** The record `sanitizeNullToEmpty` returns, as a value. */
  function Sanitized(obj: JsObject): JsObject {
    map k | k in InitEmp :: SanitizedValue(obj, k)
  }

  /** The `for...in` loop over the keys of `initEmp`, writing each key of a fresh result. */
  method SanitizeNullToEmpty(obj: JsObject) returns (result: JsObject)
    ensures result == Sanitized(obj)
  {
    result := map[];
    for i := 0 to |EmpKeys|
      invariant result.Keys == KeysBefore(i)
      invariant forall k :: k in result ==> k in InitEmp && result[k] == SanitizedValue(obj, k)
    {
      var key := EmpKeys[i];
      KeysBeforeStep(i);
      result := result[key := SanitizedValue(obj, key)];
    }
    InitEmpShape();
    assert result.Keys == Sanitized(obj).Keys;
  }

  /** The result has exactly the keys of `initEmp`; any other key of the input is dropped. */
  lemma SanitizedKeys(obj: JsObject)
    ensures Sanitized(obj).Keys == InitEmp.Keys
    ensures forall k :: k in obj && k !in InitEmp ==> k !in Sanitized(obj)
  {
  }

  /** Null and undefined become "" (every default is text, so the `0` branch is never taken). */
  lemma NullishBecomesEmpty(obj: JsObject, k: string)
    requires k in InitEmp && IsNullish(Get(obj, k))
    ensures Sanitized(obj)[k] == Str("")
  {
  }

  lemma OtherValuesCopied(obj: JsObject, k: string)
    requires k in InitEmp && !IsNullish(Get(obj, k))
    ensures Sanitized(obj)[k] == Get(obj, k)
  {
  }

  lemma NoNullishLeft(obj: JsObject)
    ensures forall k :: k in Sanitized(obj) ==> !IsNullish(Sanitized(obj)[k])
  {
  }

  lemma SanitizeIdempotent(obj: JsObject)
    ensures Sanitized(Sanitized(obj)) == Sanitized(obj)
  {
  }
}
