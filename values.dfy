/**
 The few Python value conventions the lootbox engine relies on: an optional
 value (Python's None), string truthiness, and the numeric coercions that the
 catalog loader and the leaderboard apply to a JSON field.
 */
module Values {

  datatype Option<+T> = None | Some(value: T)

  /** Python truthiness of an optional string: None and "" are false. */
  predicate Truthy(s: Option<string>) {
    s.Some? && s.value != ""
  }

  /**
   A numeric field of a parsed JSON record, classified by how Python's
   int() and float() treat it: absent, a value int() accepts (an int, a bool,
   or integer text), a value only float() accepts (a float or decimal text),
   or a value neither accepts (null, a list, other text).
   */
  datatype NumField = Absent | Integer(n: int) | Decimal(x: real) | Unparseable

  /** Python's int() on a float: truncation toward zero. */
  function Trunc(x: real): (r: int)
    ensures 0.0 <= x ==> r as real <= x < r as real + 1.0
    ensures x < 0.0 ==> r as real - 1.0 < x <= r as real
  {
    if x >= 0.0 then x.Floor
    else
      var m := (-x).Floor;
      assert m as real <= -x < m as real + 1.0;
      -m
  }

  /** An integer-valued float is returned unchanged by int(). */
  lemma TruncOfInteger(n: int)
    ensures Trunc(n as real) == n
  {
    if n < 0 {
      assert -(n as real) == (-n) as real;
    }
  }
}
