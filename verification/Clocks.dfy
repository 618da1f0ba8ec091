/** The process clock: readings never run backwards. */
module Clocks {

  class Clock {
    var now: int

    constructor (start: int)
      ensures now == start
    {
      now := start;
    }

    method Now() returns (reading: int)
      modifies this
      ensures old(now) <= now == reading
    {
      var passed :| 0 <= passed;
      now := now + passed;
      reading := now;
    }
  }
}
