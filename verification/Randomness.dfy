/** Random draws and noise, of which nothing is known but their ranges. */
module Randomness {

  /** `Next(lo, hi)`: any number of the range; the bound itself when the range is empty. */
  method NextRange(lo: int, hi: int) returns (r: int)
    requires lo <= hi
    ensures lo <= r && (r < hi || r == lo == hi)
  {
    r :| lo <= r && (r < hi || r == lo == hi);
  }

  /** `NextDouble()`. */
  method NextReal() returns (r: real)
    ensures 0.0 <= r < 1.0
  {
    r :| 0.0 <= r < 1.0;
  }

  /** A value of the noise, which may be anything. */
  method Sample() returns (r: real)
  {
    r :| true;
  }
}
