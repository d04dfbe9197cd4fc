module Sequences {
  function LastFive<T>(xs: seq<T>): seq<T> {
    if |xs| <= 5 then xs else xs[|xs| - 5..]
  }
}
