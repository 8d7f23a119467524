/** Small facts about sequences. */
module Seqs {
  lemma SomeMember<T>(list: seq<T>)
    ensures |list| > 0 ==> exists x :: x in list
  {
    if |list| > 0 {
      assert list[0] in list;
    }
  }

  lemma TakeMember<T>(list: seq<T>, k: nat, x: T)
    requires k < |list| && x in list[..k + 1]
    ensures x in list[..k] || x == list[k]
  {}

  lemma Reassemble<T>(list: seq<T>, k: nat)
    requires k < |list|
    ensures list == list[..k] + [list[k]] + list[k + 1..]
  {}

  lemma TakeNext<T>(list: seq<T>, k: nat)
    requires k < |list|
    ensures list[..k + 1] == list[..k] + [list[k]]
  {}
}
