/**
 * The part of SysUtils that is plain computation: converting a timeout
 * duration into a `struct timeval` (whole seconds plus remaining microseconds).
 */
module SysUtils {

  /** `struct timeval`: seconds and microseconds. */
  datatype Timeval = Timeval(tvSec: int, tvUsec: int)

  const MicrosPerSecond: int := 1000000

  /**
   * convertDurationInTimeval. `usec` is the timeout already cast to whole
   * microseconds. A duration that is zero or negative becomes the zero
   * timeval; a positive one is split into seconds and a remainder below one
   * second. Both operands are positive on that branch, so C++'s truncating
   * `/` and `%` agree with Dafny's.
   */
  function ConvertDurationInTimeval(usec: int): (tv: Timeval)
    ensures usec <= 0 ==> tv == Timeval(0, 0)
    ensures usec > 0 ==> tv.tvSec * MicrosPerSecond + tv.tvUsec == usec
    ensures usec > 0 ==> 0 <= tv.tvUsec < MicrosPerSecond && 0 <= tv.tvSec
  {
    if usec <= 0 then Timeval(0, 0)
    else Timeval(usec / MicrosPerSecond, usec % MicrosPerSecond)
  }

  /**
   * The split of a positive duration is the only one with a remainder below
   * one second: in particular the seconds are `usec / 1000000` exactly.
   */
  lemma ConvertDurationIsUniqueSplit(usec: int, sec: int, micros: int)
    requires usec > 0
    requires sec * MicrosPerSecond + micros == usec && 0 <= micros < MicrosPerSecond
    ensures ConvertDurationInTimeval(usec) == Timeval(sec, micros)
    ensures sec == usec / MicrosPerSecond
  {
  }
}
