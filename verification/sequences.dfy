/** Small facts about sequence concatenation that the proofs move pieces across with. */
module Sequences {

  /** Concatenation is associative. */
  lemma SeqRegroup<T>(x: seq<T>, y: seq<T>, z: seq<T>)
    ensures (x + y) + z == x + (y + z)
  {
  }

  /** The empty sequence in front changes nothing. */
  lemma PrependEmpty<T>(e: seq<T>, x: seq<T>)
    requires e == []
    ensures e + x == x
  {
  }

  /** A non-empty sequence is its head followed by its tail. */
  lemma HeadTail<T>(s: seq<T>)
    requires s != []
    ensures [s[0]] + s[1..] == s
  {
  }
}
