/**
 * The records the burn-weight scheduler reads from the chain. Chain queries are not
 * modelled: their answers are inputs of the operations that use them.
 */
module Chain {
  import opened Common

  /** Integer identifier of a registered participant of a subnet. */
  type Uid = int

  /**
   * One registered participant. A field the chain record may lack is an `Option`:
   * `uid`, the keys, and `registrationBlock` (absent means "registered at +infinity"
   * for the earliest-registration rule). `isValidator` is false when the record lacks it.
   */
  datatype Neuron = Neuron(
    uid: Option<Uid>,
    hotkey: Option<string>,
    coldkey: Option<string>,
    stake: real,
    isValidator: bool,
    validatorPermit: bool,
    registrationBlock: Option<int>)

  /** The answer to a storage query whose value is converted with Python's `int()`. */
  datatype QueryResponse =
    | QueryRaised             // the query itself raised
    | IntValue(i: int)        // an integer value
    | FloatValue(r: real)     // a finite float value, truncated toward zero by int()
    | NotConvertible          // a value int() rejects with TypeError or ValueError

  /** Python's int() on a finite float: truncation toward zero. */
  function TruncateTowardZero(r: real): (i: int)
    ensures r >= 0.0 ==> i as real <= r < i as real + 1.0
    ensures r < 0.0 ==> i as real - 1.0 < r <= i as real
  {
    if r >= 0.0 then r.Floor else -((-r).Floor)
  }
}
