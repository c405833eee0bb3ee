/** Small facts about sequences, kept apart so that proofs about the
    generator and the parser can cite them without re-deriving them. */
module Sequences {

  /** A nonempty sequence is its head in front of its tail. */
  lemma HeadTail<T>(s: seq<T>)
    requires s != []
    ensures [s[0]] + s[1..] == s
  {
  }
}
