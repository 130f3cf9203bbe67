/** Facts about sequences that are not found without a prompt. */
module Sequences {
  lemma {:induction false} Associates<T>(x: seq<T>, y: seq<T>, z: seq<T>)
    ensures x + (y + z) == (x + y) + z
  {
  }

  lemma {:induction false} FirstAndRest<T>(s: seq<T>, first: T, rest: seq<T>)
    requires s != []
    ensures s == [first] + rest <==> s[0] == first && s[1..] == rest
  {
    assert s == [s[0]] + s[1..];
    assert ([first] + rest)[1..] == rest;
  }
}
