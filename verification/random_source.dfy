/** The random source as an explicit stream of draws, read from a position
    that advances by one per draw. Every `rand.Intn(n)` of the source reads
    the next draw, which a real generator always places in [0, n); a stream
    that runs dry or offers a value out of range is not one `math/rand` can
    produce, and drawing from it yields `None`. */
module RandomSource {
  import opened Wrappers

  /** A value taken from the stream, and the position of the next draw. */
  datatype Drawn<+T> = Drawn(value: T, next: nat)

  /** `rand.Intn(n)` reading the draw at position `at`; Go panics unless
      n > 0. */
  function Intn(src: seq<nat>, at: nat, n: nat): (r: Option<Drawn<nat>>)
    requires n > 0
    ensures r.Some? <==> at < |src| && src[at] < n
    ensures r.Some? ==> r.value.value == src[at] && r.value.value < n && r.value.next == at + 1
  {
    if at >= |src| || src[at] >= n then None else Some(Drawn(src[at], at + 1))
  }
}
