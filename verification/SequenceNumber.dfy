/** src/protocol/sequence_number.ts: a bounded counter that never wraps. */
module SequenceNumbers {
  import opened Prelude

  datatype RangeError = TooSmall | TooLarge | Decrement

  class SequenceNumber {
    const minValue: int
    const maxValue: int
    var value: int

    constructor (initialValue: int, minValue: int, maxValue: int)
      ensures this.minValue == minValue && this.maxValue == maxValue && value == initialValue
    {
      this.minValue := minValue;
      this.maxValue := maxValue;
      value := initialValue;
    }

    method Validate(other: int) returns (r: Result<(), RangeError>)
      ensures r.Ok? <==> minValue <= other <= maxValue
      ensures r.Err? ==> r.error == if other < minValue then TooSmall else TooLarge
    {
      if other < minValue {
        return Err(TooSmall);
      }
      if other > maxValue {
        return Err(TooLarge);
      }
      return Ok(());
    }

    method Set(value: int) returns (r: Result<(), RangeError>)
      modifies this
      ensures r.Ok? <==> minValue <= value <= maxValue
      ensures r.Err? ==> r.error == if value < minValue then TooSmall else TooLarge
      ensures this.value == if r.Ok? then value else old(this.value)
    {
      r := Validate(value);
      if r.Ok? {
        this.value := value;
      }
    }

    /** Returns the number as it was before. A failing call leaves the counter alone. */
    method Increment(amount: int := 1) returns (r: Result<int, RangeError>)
      modifies this
      ensures r.Ok? <==> 0 <= amount && minValue <= old(value) + amount <= maxValue
      ensures r.Ok? ==> r.value == old(value) && value == old(value) + amount
      ensures r.Err? ==> value == old(value)
      ensures r == Err(Decrement) <==> amount < 0
      ensures r == Err(TooLarge) <==> 0 <= amount && minValue <= old(value) + amount && maxValue < old(value) + amount
    {
      if amount < 0 {
        return Err(Decrement);
      }
      var before := value;
      var updated := Set(value + amount);
      return match updated case Ok(_) => Ok(before) case Err(e) => Err(e);
    }
  }
}
